/** The invalidation protocol: admin writes, publishes, deliveries and losses, interleaved with lookups that
    miss the cache, send their Redis commands and fill the cache as separate steps. */
module Invalidation {
  import opened Text
  import opened Patterns
  import opened Cache
  import opened Settings
  import opened Checker
  import opened Redirects
  import opened Sync
  import opened Admin
  import opened Wrappers

  // ---------- states ----------

  /** One Redis command: the version of the store it saw, and when. */
  datatype View = View(version: nat, time: nat)

  /** A lookup that missed the cache; name is the normalised domain. A block answer without a read comes from
      the fallback list alone. */
  datatype Flight = Flight(kind: Kind, user: string, name: string, views: seq<View>, answer: Option<Value>)

  /** An executed admin write. */
  datatype Cause = Cause(user: string, change: Change)

  /** The store as it was from `since` until the next version, and the write that made it so. */
  datatype Version = Version(since: nat, store: Store, cause: Option<Cause>)

  /** The lookup that filled a cache entry, and when it did. */
  datatype Fill = Fill(flight: Flight, at: nat)

  /** The first five fields are the system; the last three record how it got there and steer nothing.
      unsent holds one entry per admin request between its write and its publish. */
  datatype State = State(
    now: nat,
    items: Items,
    flights: map<nat, Flight>,
    unsent: seq<string>,
    queue: seq<ConfigEvent>,
    history: seq<Version>,
    fills: map<string, Fill>,
    suspect: set<string>)

  function Current(s: State): Store
    requires s.history != []
  {
    s.history[|s.history| - 1].store
  }

  function Init(store: Store): State {
    State(0, map[], map[], [], [], [Version(0, store, None)], map[], {})
  }

  // ---------- steps ----------

  datatype Event =
    | Tick(ms: nat)
    | Write(user: string, change: Change, reply: Reply)
    | Publish(index: nat, ok: bool)
    | External(event: ConfigEvent)
    | Deliver
    | Lose(index: nat)
    | Begin(id: nat, kind: Kind, user: string, domain: string)
    | Read(id: nat, reachable: bool)
    | Finish(id: nat)

  /** What a lookup answers when it sees this store only. */
  function Right(kind: Kind, entries: seq<string>, store: Store, user: string, name: string): Value {
    if kind.Blocking? then Verdict(Decision(entries, RulesOf(store, user), name))
    else Target(Lookup(TargetsOf(store, user), name))
  }

  /** What a lookup in flight will answer if its remaining commands see this store. */
  function Due(entries: seq<string>, store: Store, f: Flight): Value {
    if f.answer.Some? then f.answer.value
    else if f.kind.Blocking? || |f.views| > |PatternsOf(f.name)| then Right(f.kind, entries, store, f.user, f.name)
    else Target(FirstTarget(TargetsOf(store, f.user), PatternsOf(f.name)[|f.views|..]))
  }

  /** The lookup has read the store, and what it read no longer gives the right answer. */
  predicate Outdated(entries: seq<string>, store: Store, f: Flight) {
    f.views != [] && Due(entries, store, f) != Right(f.kind, entries, store, f.user, f.name)
  }

  predicate FlightsRight(entries: seq<string>, s: State, user: string)
    requires s.history != []
  {
    forall id :: id in s.flights && s.flights[id].user == user ==> !Outdated(entries, Current(s), s.flights[id])
  }

  function Drop<T>(s: seq<T>, i: nat): seq<T>
    requires i < |s|
  {
    s[..i] + s[i + 1..]
  }

  /** An executed write is a new version. If its reply was lost, no event will follow it. */
  function WriteStep(s: State, user: string, change: Change, reply: Reply): State
    requires s.history != []
  {
    if !Bound(user, change) || reply.Unreachable? then s
    else
      var v := Version(s.now, Changed(Current(s), user, change), Some(Cause(user, change)));
      var t := s.(history := s.history + [v]);
      if reply.Acked? then t.(unsent := s.unsent + [user]) else t.(suspect := s.suspect + {user})
  }

  function PublishStep(s: State, index: nat, ok: bool): State {
    if index >= |s.unsent| then s
    else
      var t := s.(unsent := Drop(s.unsent, index));
      if ok then t.(queue := s.queue + [ConfigEvent(s.unsent[index], CLEAR_CACHE)])
      else t.(suspect := s.suspect + {s.unsent[index]})
  }

  function DeliverStep(entries: seq<string>, s: State): State
    requires s.history != []
  {
    if s.queue == [] then s
    else
      var e := s.queue[0];
      var t := s.(queue := s.queue[1..], items := Handle(s.items, e, s.now));
      if !Evicts(e, e.user) then t
      else if FlightsRight(entries, s, e.user) then t.(suspect := s.suspect - {e.user})
      else t.(suspect := s.suspect + {e.user})
  }

  function LoseStep(s: State, index: nat): State {
    if index >= |s.queue| then s
    else
      var t := s.(queue := Drop(s.queue, index));
      if Evicts(s.queue[index], s.queue[index].user) then t.(suspect := s.suspect + {s.queue[index].user}) else t
  }

  /** Without Redis a redirect lookup that misses ends at once and caches nothing. */
  function BeginStep(cfg: Config, s: State, id: nat, kind: Kind, user: string, domain: string): State {
    if id in s.flights || Live(s.items, KeyOf(kind, user, Normalize(domain)), s.now)
       || (kind.Redirecting? && !cfg.enabled) then s
    else s.(flights := s.flights[id := Flight(kind, user, Normalize(domain), [], None)])
  }

  /** One HGET of a redirect lookup, for its next candidate. */
  function Hget(f: Flight, ps: seq<string>, targets: map<string, string>, view: View): Flight {
    var n := |f.views|;
    f.(views := f.views + [view],
       answer := if n < |ps| && HasAt(targets, ps[n]) then Some(Target(targets[ps[n]]))
                 else if n + 1 >= |ps| then Some(Target("")) else None)
  }

  /** A block lookup sends one SMISMEMBER for all candidates, a redirect lookup one HGET after the other. */
  function Command(cfg: Config, f: Flight, store: Store, view: View, reachable: bool): Flight {
    if f.kind.Blocking? then
      f.(views := if cfg.enabled && reachable then [view] else [],
         answer := Some(Verdict(Computed(cfg, RulesOf(store, f.user), f.name, reachable))))
    else Hget(f, PatternsOf(f.name), TargetsOf(store, f.user), view)
  }

  /** A redirect lookup whose command fails ends without filling the cache. */
  function AfterCommand(cfg: Config, flights: map<nat, Flight>, store: Store, view: View, id: nat, reachable: bool)
    : map<nat, Flight>
  {
    if id !in flights || flights[id].answer.Some? then flights
    else if flights[id].kind.Redirecting? && !reachable then flights - {id}
    else flights[id := Command(cfg, flights[id], store, view, reachable)]
  }

  /** The view of a command sent now. */
  function Now(s: State): View
    requires s.history != []
  {
    View(|s.history| - 1, s.now)
  }

  function ReadStep(cfg: Config, s: State, id: nat, reachable: bool): State
    requires s.history != []
  {
    s.(flights := AfterCommand(cfg, s.flights, Current(s), Now(s), id, reachable))
  }

  function FinishStep(s: State, id: nat): State {
    if id !in s.flights || s.flights[id].answer.None? then s
    else
      var f := s.flights[id];
      var key := KeyOf(f.kind, f.user, f.name);
      s.(flights := s.flights - {id},
         items := Put(s.items, key, f.answer.value, s.now),
         fills := s.fills[key := Fill(f, s.now)])
  }

  function Step(cfg: Config, s: State, e: Event): (t: State)
    requires s.history != []
    ensures t.history != []
  {
    match e
    case Tick(ms) => s.(now := s.now + ms)
    case Write(u, c, reply) => WriteStep(s, u, c, reply)
    case Publish(i, ok) => PublishStep(s, i, ok)
    case External(event) => s.(queue := s.queue + [event])
    case Deliver => DeliverStep(cfg.entries, s)
    case Lose(i) => LoseStep(s, i)
    case Begin(id, kind, u, d) => BeginStep(cfg, s, id, kind, u, d)
    case Read(id, reachable) => ReadStep(cfg, s, id, reachable)
    case Finish(id) => FinishStep(s, id)
  }

  function Run(cfg: Config, s: State, events: seq<Event>): (t: State)
    requires s.history != []
    ensures t.history != []
  {
    if events == [] then s else Step(cfg, Run(cfg, s, events[..|events| - 1]), events[|events| - 1])
  }

  predicate LooksUp(e: Event, users: set<string>) {
    e.Begin? ==> e.user in users
  }

  /** All lookups are made for these users; the other events are arbitrary. */
  predicate LookupsBy(users: set<string>, events: seq<Event>) {
    forall i :: 0 <= i < |events| ==> LooksUp(events[i], users)
  }

  // ---------- provenance ----------

  /** Version v was the store's content at time t. */
  predicate CurrentAt(history: seq<Version>, v: nat, t: nat) {
    v < |history| && history[v].since <= t && (v + 1 < |history| ==> t <= history[v + 1].since)
  }

  /** The commands of a lookup follow one another, each sees what was current at its time, all by `until`. */
  predicate ReadsOk(history: seq<Version>, views: seq<View>, until: nat) {
    && (forall j :: 0 <= j < |views| ==> CurrentAt(history, views[j].version, views[j].time) && views[j].time <= until)
    && (forall i, j :: 0 <= i < j < |views| ==>
          views[i].version <= views[j].version && views[i].time <= views[j].time)
  }

  /** The first n commands found no target. */
  predicate Missed(history: seq<Version>, user: string, ps: seq<string>, views: seq<View>, n: nat) {
    && n <= |views| && n <= |ps|
    && forall j :: 0 <= j < n ==>
         views[j].version < |history| && !HasAt(TargetsOf(history[views[j].version].store, user), ps[j])
  }

  /** The answer follows from the reads: for a block lookup, the decision of the version read, or the fallback
      list's; for a redirect lookup, the last candidate's target when it was read, or none after all of them. */
  predicate Explained(entries: seq<string>, history: seq<Version>, kind: Kind, user: string, name: string,
                      views: seq<View>, value: Value)
  {
    if views == [] then kind.Blocking? && value == Verdict(Fallback(entries, name))
    else if kind.Blocking? then
      && |views| == 1 && views[0].version < |history|
      && value == Right(Blocking, entries, history[views[0].version].store, user, name)
    else
      var ps, n := PatternsOf(name), |views| - 1;
      && Missed(history, user, ps, views, n) && n < |ps| && views[n].version < |history|
      && var targets := TargetsOf(history[views[n].version].store, user);
      if HasAt(targets, ps[n]) then value == Target(targets[ps[n]]) else n + 1 == |ps| && value == Target("")
  }

  /** An answer follows from the reads; without one, no command so far has settled the lookup. */
  predicate AnswerOk(entries: seq<string>, history: seq<Version>, f: Flight) {
    if f.answer.Some? then Explained(entries, history, f.kind, f.user, f.name, f.views, f.answer.value)
    else if f.kind.Blocking? then f.views == []
    else |f.views| < |PatternsOf(f.name)| && Missed(history, f.user, PatternsOf(f.name), f.views, |f.views|)
  }

  predicate FlightOk(users: set<string>, entries: seq<string>, history: seq<Version>, f: Flight, until: nat) {
    f.user in users && ReadsOk(history, f.views, until) && AnswerOk(entries, history, f)
  }

  /** A cache entry is what the lookup that filled it had answered. */
  predicate ItemOk(users: set<string>, entries: seq<string>, history: seq<Version>, key: string, item: Item,
                   fill: Fill, now: nat)
  {
    && key == KeyOf(fill.flight.kind, fill.flight.user, fill.flight.name)
    && fill.flight.answer == Some(item.value)
    && FlightOk(users, entries, history, fill.flight, fill.at)
    && fill.at <= now && item.expiry == fill.at + TTL
  }

  predicate HistoryOk(s: State) {
    s.history != [] && s.history[|s.history| - 1].since <= s.now && Chronological(s.history)
  }

  predicate Chronological(history: seq<Version>) {
    |history| <= 1 ||
    (history[|history| - 2].since <= history[|history| - 1].since && Chronological(history[..|history| - 1]))
  }

  lemma {:induction false} NoEarlier(history: seq<Version>, v: nat, w: nat)
    requires Chronological(history) && v <= w < |history|
    ensures history[v].since <= history[w].since
  {
    if v < w {
      if w < |history| - 1 {
        NoEarlier(history[..|history| - 1], v, w);
      } else {
        NoEarlier(history[..|history| - 1], v, w - 1);
      }
    }
  }

  lemma ChronologicalSnoc(history: seq<Version>, v: Version)
    requires history != [] && Chronological(history) && history[|history| - 1].since <= v.since
    ensures Chronological(history + [v])
  {
    var all := history + [v];
    assert all[..|all| - 1] == history && all[|all| - 1] == v && all[|all| - 2] == history[|history| - 1];
  }

  predicate FlightsOk(users: set<string>, entries: seq<string>, history: seq<Version>, flights: map<nat, Flight>, now: nat) {
    forall id :: id in flights ==> FlightOk(users, entries, history, flights[id], now)
  }

  predicate ItemsOk(users: set<string>, entries: seq<string>, history: seq<Version>, items: Items,
                    fills: map<string, Fill>, now: nat)
  {
    forall key :: key in items ==> key in fills && ItemOk(users, entries, history, key, items[key], fills[key], now)
  }

  predicate Accounted(users: set<string>, entries: seq<string>, s: State) {
    && HistoryOk(s) && FlightsOk(users, entries, s.history, s.flights, s.now)
    && ItemsOk(users, entries, s.history, s.items, s.fills, s.now)
  }

  lemma ReadsGrow(history: seq<Version>, v: Version, views: seq<View>, until: nat)
    requires ReadsOk(history, views, until) && until <= v.since
    ensures ReadsOk(history + [v], views, until)
  {
  }

  lemma MissedGrows(history: seq<Version>, v: Version, user: string, ps: seq<string>, views: seq<View>, n: nat)
    requires Missed(history, user, ps, views, n)
    ensures Missed(history + [v], user, ps, views, n)
  {
  }

  /** A new version leaves what was read before it explained. */
  lemma FlightGrows(users: set<string>, entries: seq<string>, history: seq<Version>, v: Version, f: Flight, until: nat)
    requires FlightOk(users, entries, history, f, until) && until <= v.since
    ensures FlightOk(users, entries, history + [v], f, until)
  {
    ReadsGrow(history, v, f.views, until);
    if f.kind.Redirecting? {
      var n := if f.answer.None? then |f.views| else |f.views| - 1;
      MissedGrows(history, v, f.user, PatternsOf(f.name), f.views, n);
    }
  }

  lemma FlightsGrow(users: set<string>, entries: seq<string>, history: seq<Version>, v: Version,
                    flights: map<nat, Flight>)
    requires FlightsOk(users, entries, history, flights, v.since)
    ensures FlightsOk(users, entries, history + [v], flights, v.since)
  {
    forall id | id in flights ensures FlightOk(users, entries, history + [v], flights[id], v.since) {
      FlightGrows(users, entries, history, v, flights[id], v.since);
    }
  }

  lemma ItemsGrow(users: set<string>, entries: seq<string>, history: seq<Version>, v: Version, items: Items,
                  fills: map<string, Fill>)
    requires ItemsOk(users, entries, history, items, fills, v.since)
    ensures ItemsOk(users, entries, history + [v], items, fills, v.since)
  {
    forall key | key in items
      ensures key in fills && ItemOk(users, entries, history + [v], key, items[key], fills[key], v.since)
    {
      FlightGrows(users, entries, history, v, fills[key].flight, fills[key].at);
    }
  }

  lemma WriteKeepsAccounts(users: set<string>, entries: seq<string>, s: State, user: string, change: Change, reply: Reply)
    requires Accounted(users, entries, s)
    ensures Accounted(users, entries, WriteStep(s, user, change, reply))
  {
    if Bound(user, change) && !reply.Unreachable? {
      var v := Version(s.now, Changed(Current(s), user, change), Some(Cause(user, change)));
      ChronologicalSnoc(s.history, v);
      FlightsGrow(users, entries, s.history, v, s.flights);
      ItemsGrow(users, entries, s.history, v, s.items, s.fills);
    }
  }

  /** Time may pass, entries may go and lookups may start; nothing else changes. */
  ghost predicate Shrinks(users: set<string>, s: State, t: State) {
    && t.history == s.history && t.fills == s.fills && s.now <= t.now
    && (forall key :: key in t.items ==> key in s.items && t.items[key] == s.items[key])
    && (forall id :: id in t.flights ==>
          (id in s.flights && t.flights[id] == s.flights[id]) || JustBegun(users, t.flights[id]))
  }

  predicate JustBegun(users: set<string>, f: Flight) {
    f.user in users && f.views == [] && f.answer.None?
  }

  lemma DeliverShrinks(users: set<string>, entries: seq<string>, s: State)
    requires s.history != []
    ensures Shrinks(users, s, DeliverStep(entries, s))
  {
    if s.queue != [] {
      var e := s.queue[0];
      assert Handle(s.items, e, s.now) == s.items || Handle(s.items, e, s.now) == Clear(s.items, e.user, s.now);
    }
  }

  lemma BeginShrinks(users: set<string>, cfg: Config, s: State, id: nat, kind: Kind, user: string, domain: string)
    requires user in users
    ensures Shrinks(users, s, BeginStep(cfg, s, id, kind, user, domain))
  {
  }

  lemma QueueingShrinks(users: set<string>, s: State, t: State)
    requires t == s.(now := t.now, unsent := t.unsent, queue := t.queue, suspect := t.suspect) && s.now <= t.now
    ensures Shrinks(users, s, t)
  {
  }

  lemma StepShrinks(users: set<string>, cfg: Config, s: State, e: Event)
    requires s.history != [] && !e.Write? && !e.Read? && !e.Finish? && LooksUp(e, users)
    ensures Shrinks(users, s, Step(cfg, s, e))
  {
    if e.Deliver? {
      DeliverShrinks(users, cfg.entries, s);
    } else if e.Begin? {
      BeginShrinks(users, cfg, s, e.id, e.kind, e.user, e.domain);
    } else {
      QueueingShrinks(users, s, Step(cfg, s, e));
    }
  }

  lemma ShrinkKeepsAccounts(users: set<string>, entries: seq<string>, s: State, t: State)
    requires Accounted(users, entries, s) && Shrinks(users, s, t)
    ensures Accounted(users, entries, t)
  {
    forall id | id in t.flights ensures FlightOk(users, entries, t.history, t.flights[id], t.now) {
      if id in s.flights && t.flights[id] == s.flights[id] {
        LaterIsOk(users, entries, s.history, s.flights[id], s.now, t.now);
      } else {
        BegunIsOk(users, entries, t.history, t.flights[id], t.now);
      }
    }
    FewerItemsOk(users, entries, s.history, s.items, t.items, s.fills, s.now, t.now);
  }

  lemma FewerItemsOk(users: set<string>, entries: seq<string>, history: seq<Version>, items: Items, fewer: Items,
                     fills: map<string, Fill>, now: nat, later: nat)
    requires ItemsOk(users, entries, history, items, fills, now) && now <= later
    requires forall key :: key in fewer ==> key in items && fewer[key] == items[key]
    ensures ItemsOk(users, entries, history, fewer, fills, later)
  {
  }

  lemma LaterIsOk(users: set<string>, entries: seq<string>, history: seq<Version>, f: Flight, until: nat, later: nat)
    requires FlightOk(users, entries, history, f, until) && until <= later
    ensures FlightOk(users, entries, history, f, later)
  {
  }

  lemma BegunIsOk(users: set<string>, entries: seq<string>, history: seq<Version>, f: Flight, until: nat)
    requires JustBegun(users, f)
    ensures FlightOk(users, entries, history, f, until)
  {
  }

  lemma ReadsAppended(history: seq<Version>, views: seq<View>, until: nat)
    requires history != [] && history[|history| - 1].since <= until && ReadsOk(history, views, until)
    ensures ReadsOk(history, views + [View(|history| - 1, until)], until)
  {
    var last := View(|history| - 1, until);
    assert CurrentAt(history, last.version, last.time);
    forall j | 0 <= j < |views|
      ensures views[j].version <= last.version && views[j].time <= last.time
    {
      assert CurrentAt(history, views[j].version, views[j].time);
    }
  }

  lemma MissedAppended(history: seq<Version>, user: string, ps: seq<string>, views: seq<View>, view: View)
    requires Missed(history, user, ps, views, |views|) && |views| < |ps|
    ensures Missed(history, user, ps, views + [view], |views|)
    ensures view.version < |history| && !HasAt(TargetsOf(history[view.version].store, user), ps[|views|]) ==>
              Missed(history, user, ps, views + [view], |views| + 1)
  {
  }

  lemma CommandIsOk(users: set<string>, cfg: Config, history: seq<Version>, now: nat, f: Flight, reachable: bool)
    requires history != [] && history[|history| - 1].since <= now
    requires FlightOk(users, cfg.entries, history, f, now) && f.answer.None?
    ensures FlightOk(users, cfg.entries, history,
                     Command(cfg, f, history[|history| - 1].store, View(|history| - 1, now), reachable), now)
  {
    var view := View(|history| - 1, now);
    var g := Command(cfg, f, history[|history| - 1].store, view, reachable);
    CommandReadsOk(cfg, history, f, now, reachable);
    assert AnswerOk(cfg.entries, history, g) by {
      if f.kind.Blocking? {
        BlockCommandIsOk(cfg, history, f, view, reachable);
      } else {
        RedirectCommandIsOk(cfg, history, f, view, reachable);
      }
    }
    assert g.user == f.user;
  }

  lemma CommandReadsOk(cfg: Config, history: seq<Version>, f: Flight, now: nat, reachable: bool)
    requires history != [] && history[|history| - 1].since <= now && ReadsOk(history, f.views, now)
    requires f.kind.Blocking? ==> f.views == []
    ensures var view := View(|history| - 1, now);
            ReadsOk(history, Command(cfg, f, history[|history| - 1].store, view, reachable).views, now)
  {
    var view := View(|history| - 1, now);
    ReadsAppended(history, f.views, now);
    var g := Command(cfg, f, history[|history| - 1].store, view, reachable);
    assert g.views == f.views || g.views == f.views + [view];
  }

  lemma BlockCommandIsOk(cfg: Config, history: seq<Version>, f: Flight, view: View, reachable: bool)
    requires f.kind.Blocking? && view.version < |history|
    ensures AnswerOk(cfg.entries, history, Command(cfg, f, history[view.version].store, view, reachable))
  {
  }

  lemma RedirectCommandIsOk(cfg: Config, history: seq<Version>, f: Flight, view: View, reachable: bool)
    requires f.kind.Redirecting? && view.version < |history| && f.answer.None? && AnswerOk(cfg.entries, history, f)
    ensures AnswerOk(cfg.entries, history, Command(cfg, f, history[view.version].store, view, reachable))
  {
    MissedAppended(history, f.user, PatternsOf(f.name), f.views, view);
  }

  lemma ReadFlightsOk(users: set<string>, cfg: Config, history: seq<Version>, flights: map<nat, Flight>, now: nat,
                      id: nat, reachable: bool)
    requires history != [] && history[|history| - 1].since <= now
    requires FlightsOk(users, cfg.entries, history, flights, now)
    ensures FlightsOk(users, cfg.entries, history,
                      AfterCommand(cfg, flights, history[|history| - 1].store, View(|history| - 1, now), id, reachable), now)
  {
    if id in flights && flights[id].answer.None? {
      CommandIsOk(users, cfg, history, now, flights[id], reachable);
    }
  }

  lemma ReadKeepsAccounts(users: set<string>, cfg: Config, s: State, id: nat, reachable: bool)
    requires Accounted(users, cfg.entries, s)
    ensures Accounted(users, cfg.entries, ReadStep(cfg, s, id, reachable))
  {
    ReadFlightsOk(users, cfg, s.history, s.flights, s.now, id, reachable);
  }

  lemma FinishItemsOk(users: set<string>, entries: seq<string>, history: seq<Version>, items: Items,
                      fills: map<string, Fill>, now: nat, f: Flight)
    requires ItemsOk(users, entries, history, items, fills, now)
    requires FlightOk(users, entries, history, f, now) && f.answer.Some?
    ensures var key := KeyOf(f.kind, f.user, f.name);
            ItemsOk(users, entries, history, Put(items, key, f.answer.value, now), fills[key := Fill(f, now)], now)
  {
  }

  lemma FinishKeepsAccounts(users: set<string>, entries: seq<string>, s: State, id: nat)
    requires Accounted(users, entries, s)
    ensures Accounted(users, entries, FinishStep(s, id))
  {
    if id in s.flights && s.flights[id].answer.Some? {
      FinishPartsOk(users, entries, s.history, s.flights, s.items, s.fills, s.now, id);
      FinishedIsOk(users, entries, s, id, FinishStep(s, id));
    }
  }

  lemma FinishedIsOk(users: set<string>, entries: seq<string>, s: State, id: nat, t: State)
    requires HistoryOk(s) && id in s.flights && s.flights[id].answer.Some? && t == FinishStep(s, id)
    requires FlightsOk(users, entries, s.history, s.flights - {id}, s.now)
    requires var f := s.flights[id];
             var key := KeyOf(f.kind, f.user, f.name);
             ItemsOk(users, entries, s.history, Put(s.items, key, f.answer.value, s.now), s.fills[key := Fill(f, s.now)], s.now)
    ensures Accounted(users, entries, t)
  {
    FinishParts(s, id, t);
    FromParts(users, entries, t);
  }

  lemma FinishPartsOk(users: set<string>, entries: seq<string>, history: seq<Version>, flights: map<nat, Flight>,
                      items: Items, fills: map<string, Fill>, now: nat, id: nat)
    requires FlightsOk(users, entries, history, flights, now) && ItemsOk(users, entries, history, items, fills, now)
    requires id in flights && flights[id].answer.Some?
    ensures FlightsOk(users, entries, history, flights - {id}, now)
    ensures var f := flights[id];
            var key := KeyOf(f.kind, f.user, f.name);
            ItemsOk(users, entries, history, Put(items, key, f.answer.value, now), fills[key := Fill(f, now)], now)
  {
    FlightDropped(users, entries, history, flights, now, id);
    FinishItemsOk(users, entries, history, items, fills, now, flights[id]);
  }

  lemma FinishParts(s: State, id: nat, t: State)
    requires id in s.flights && s.flights[id].answer.Some? && t == FinishStep(s, id)
    ensures var f := s.flights[id];
            var key := KeyOf(f.kind, f.user, f.name);
            && t.history == s.history && t.now == s.now && t.flights == s.flights - {id}
            && t.items == Put(s.items, key, f.answer.value, s.now) && t.fills == s.fills[key := Fill(f, s.now)]
  {
  }

  lemma FromParts(users: set<string>, entries: seq<string>, t: State)
    requires HistoryOk(t) && FlightsOk(users, entries, t.history, t.flights, t.now)
    requires ItemsOk(users, entries, t.history, t.items, t.fills, t.now)
    ensures Accounted(users, entries, t)
  {
  }

  lemma FlightKnown(users: set<string>, entries: seq<string>, s: State, id: nat)
    requires FlightsOk(users, entries, s.history, s.flights, s.now) && id in s.flights
    ensures s.flights[id].user in users && AnswerOk(entries, s.history, s.flights[id])
    ensures FlightOk(users, entries, s.history, s.flights[id], s.now)
  {
  }

  lemma FlightDropped(users: set<string>, entries: seq<string>, history: seq<Version>, flights: map<nat, Flight>,
                      now: nat, id: nat)
    requires FlightsOk(users, entries, history, flights, now)
    ensures FlightsOk(users, entries, history, flights - {id}, now)
  {
  }

  lemma StepKeepsAccounts(users: set<string>, cfg: Config, s: State, e: Event)
    requires Accounted(users, cfg.entries, s) && LooksUp(e, users)
    ensures Accounted(users, cfg.entries, Step(cfg, s, e))
  {
    match e {
      case Write(user, change, reply) => WriteKeepsAccounts(users, cfg.entries, s, user, change, reply);
      case Read(id, reachable) => ReadKeepsAccounts(users, cfg, s, id, reachable);
      case Finish(id) => FinishKeepsAccounts(users, cfg.entries, s, id);
      case _ =>
        StepShrinks(users, cfg, s, e);
        ShrinkKeepsAccounts(users, cfg.entries, s, Step(cfg, s, e));
    }
  }

  lemma {:induction false} RunKeepsAccounts(users: set<string>, cfg: Config, s: State, events: seq<Event>)
    requires Accounted(users, cfg.entries, s) && LookupsBy(users, events)
    ensures Accounted(users, cfg.entries, Run(cfg, s, events))
  {
    if events != [] {
      RunKeepsAccounts(users, cfg, s, events[..|events| - 1]);
      StepKeepsAccounts(users, cfg, Run(cfg, s, events[..|events| - 1]), events[|events| - 1]);
    }
  }

  // ---------- staleness ----------

  /** Bounded staleness. In every interleaving, a call that hits the cache answers with what its own fill, at
      most 60 seconds old, had read: versions current when its commands saw them, the answer explained by
      them, or by the fallback list alone if it is a block check that got no answer from Redis. */
  lemma StalenessBounded(users: set<string>, cfg: Config, store: Store, events: seq<Event>,
                         kind: Kind, user: string, domain: string)
    requires Apart(users) && user in users && LookupsBy(users, events)
    requires var s := Run(cfg, Init(store), events); Live(s.items, KeyOf(kind, user, Normalize(domain)), s.now)
    ensures var s := Run(cfg, Init(store), events);
            var name := Normalize(domain);
            var key := KeyOf(kind, user, name);
            && key in s.fills && s.fills[key].at <= s.now <= s.fills[key].at + TTL
            && ReadsOk(s.history, s.fills[key].flight.views, s.fills[key].at)
            && Explained(cfg.entries, s.history, kind, user, name, s.fills[key].flight.views, s.items[key].value)
  {
    RunKeepsAccounts(users, cfg, Init(store), events);
    var s := Run(cfg, Init(store), events);
    var key := KeyOf(kind, user, Normalize(domain));
    assert ItemOk(users, cfg.entries, s.history, key, s.items[key], s.fills[key], s.now);
    var f := s.fills[key].flight;
    KeysApart(users, kind, user, Normalize(domain), f.kind, f.user, f.name);
  }

  predicate SameSettings(one: Store, two: Store, user: string) {
    RulesOf(one, user) == RulesOf(two, user) && TargetsOf(one, user) == TargetsOf(two, user)
  }

  /** No write in the last ms milliseconds changed the user's settings. */
  predicate Quiet(history: seq<Version>, now: nat, user: string, ms: nat) {
    forall v :: 0 < v < |history| && now <= history[v].since + ms ==>
      SameSettings(history[v - 1].store, history[v].store, user)
  }

  lemma {:induction false} SameSinceRead(s: State, user: string, view: View, v: nat, ms: nat)
    requires HistoryOk(s) && CurrentAt(s.history, view.version, view.time) && s.now <= view.time + ms
    requires Quiet(s.history, s.now, user, ms) && view.version <= v < |s.history|
    ensures SameSettings(s.history[view.version].store, s.history[v].store, user)
    decreases v
  {
    if view.version < v {
      SameSinceRead(s, user, view, v - 1, ms);
      NoEarlier(s.history, view.version + 1, v);
    }
  }

  lemma {:induction false} NoTarget(targets: map<string, string>, ps: seq<string>)
    requires forall j :: 0 <= j < |ps| ==> !HasAt(targets, ps[j])
    ensures FirstTarget(targets, ps) == ""
  {
    if ps != [] {
      assert !HasAt(targets, ps[0]);
      forall j | 0 <= j < |ps[1..]| ensures !HasAt(targets, ps[1..][j]) {
        assert ps[1..][j] == ps[j + 1];
      }
      NoTarget(targets, ps[1..]);
    }
  }

  /** Reads that all saw the same settings give the right answer for them. */
  lemma UniformReadsAreRight(entries: seq<string>, history: seq<Version>, kind: Kind, user: string, name: string,
                             views: seq<View>, value: Value, store: Store)
    requires views != [] && Explained(entries, history, kind, user, name, views, value)
    requires forall j :: 0 <= j < |views| ==>
               views[j].version < |history| && SameSettings(history[views[j].version].store, store, user)
    ensures value == Right(kind, entries, store, user, name)
  {
    var ps, n, targets := PatternsOf(name), |views| - 1, TargetsOf(store, user);
    assert SameSettings(history[views[n].version].store, store, user);
    if kind.Redirecting? {
      forall j | 0 <= j < n ensures !HasAt(targets, ps[j]) {
        assert SameSettings(history[views[j].version].store, store, user);
      }
      if HasAt(targets, ps[n]) {
        FirstTargetAt(targets, ps, n);
      } else {
        NoTarget(targets, ps);
      }
    }
  }

  /** For a user whose settings have not changed for 60 seconds plus the time the hit's own lookup took, a hit
      that came from the store is right now, whether or not any clear was sent, delivered or lost. */
  lemma QuietUserIsRight(users: set<string>, cfg: Config, store: Store, events: seq<Event>,
                         kind: Kind, user: string, domain: string, took: nat)
    requires Apart(users) && user in users && LookupsBy(users, events)
    requires var s := Run(cfg, Init(store), events);
             var key := KeyOf(kind, user, Normalize(domain));
             && Live(s.items, key, s.now) && key in s.fills && s.fills[key].flight.views != []
             && s.fills[key].at <= s.fills[key].flight.views[0].time + took
             && Quiet(s.history, s.now, user, TTL + took)
    ensures var s := Run(cfg, Init(store), events);
            var name := Normalize(domain);
            s.items[KeyOf(kind, user, name)].value == Right(kind, cfg.entries, Current(s), user, name)
  {
    StalenessBounded(users, cfg, store, events, kind, user, domain);
    RunKeepsAccounts(users, cfg, Init(store), events);
    var s := Run(cfg, Init(store), events);
    var key := KeyOf(kind, user, Normalize(domain));
    QuietFill(cfg.entries, s, kind, user, Normalize(domain), s.fills[key], s.items[key].value, took);
  }

  lemma QuietRead(s: State, user: string, views: seq<View>, j: nat, until: nat, ms: nat)
    requires HistoryOk(s) && ReadsOk(s.history, views, until) && j < |views|
    requires s.now <= views[0].time + ms && Quiet(s.history, s.now, user, ms)
    ensures views[j].version < |s.history|
    ensures SameSettings(s.history[views[j].version].store, Current(s), user)
  {
    assert CurrentAt(s.history, views[j].version, views[j].time) && views[0].time <= views[j].time;
    SameSinceRead(s, user, views[j], |s.history| - 1, ms);
  }

  lemma QuietFill(entries: seq<string>, s: State, kind: Kind, user: string, name: string, fill: Fill,
                  value: Value, took: nat)
    requires HistoryOk(s) && ReadsOk(s.history, fill.flight.views, fill.at) && fill.flight.views != []
    requires Explained(entries, s.history, kind, user, name, fill.flight.views, value)
    requires s.now <= fill.at + TTL && fill.at <= fill.flight.views[0].time + took
    requires Quiet(s.history, s.now, user, TTL + took)
    ensures value == Right(kind, entries, Current(s), user, name)
  {
    var views := fill.flight.views;
    forall j | 0 <= j < |views|
      ensures views[j].version < |s.history|
      ensures SameSettings(s.history[views[j].version].store, Current(s), user)
    {
      QuietRead(s, user, views, j, fill.at, TTL + took);
    }
    UniformReadsAreRight(entries, s.history, kind, user, name, views, value, Current(s));
  }
}
