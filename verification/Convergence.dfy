/** When the cache agrees with the store again after a change. */
module Convergence {
  import opened Text
  import opened Patterns
  import opened Cache
  import opened Settings
  import opened Checker
  import opened Redirects
  import opened Sync
  import opened Admin
  import opened Wrappers
  import opened Invalidation
  import opened Lookups

  // ---------- settled users ----------

  /** A hit that came from the store gives the answer of the current store. */
  predicate SettledKey(entries: seq<string>, s: State, kind: Kind, user: string, name: string)
    requires s.history != []
  {
    var key := KeyOf(kind, user, name);
    Live(s.items, key, s.now) && key in s.fills && s.fills[key].flight.views != [] ==>
      s.items[key].value == Right(kind, entries, Current(s), user, name)
  }

  ghost predicate HitsRight(entries: seq<string>, s: State, user: string)
    requires s.history != []
  {
    forall kind, name :: SettledKey(entries, s, kind, user, name)
  }

  /** Every hit of the user that came from the store is right, and so will be the answers in flight. */
  ghost predicate Settled(entries: seq<string>, s: State, user: string)
    requires s.history != []
  {
    HitsRight(entries, s, user) && FlightsRight(entries, s, user)
  }

  /** A clear for the user is still on its way. */
  predicate Outstanding(s: State, user: string) {
    user in s.unsent || exists i :: 0 <= i < |s.queue| && Evicts(s.queue[i], user)
  }

  lemma DropKeeps<T>(s: seq<T>, i: nat, k: nat)
    requires i < |s| && k < |s| && k != i
    ensures s[k] in Drop(s, i)
  {
    assert Drop(s, i)[if k < i then k else k - 1] == s[k];
  }

  lemma UnsentUntilPublished(cfg: Config, s: State, e: Event, user: string)
    requires s.history != [] && user != "" && user in s.unsent
    ensures user in Step(cfg, s, e).suspect || Outstanding(Step(cfg, s, e), user)
  {
    var t := Step(cfg, s, e);
    var k :| 0 <= k < |s.unsent| && s.unsent[k] == user;
    if e.Publish? && e.index < |s.unsent| {
      if k != e.index {
        DropKeeps(s.unsent, e.index, k);
      } else if e.ok {
        assert Evicts(t.queue[|s.queue|], user);
      }
    } else {
      assert t.unsent[k] == user;
    }
  }

  lemma QueuedUntilDelivered(cfg: Config, s: State, e: Event, user: string, k: nat)
    requires s.history != [] && k < |s.queue| && Evicts(s.queue[k], user)
    requires e.Deliver? ==> k > 0
    ensures user in Step(cfg, s, e).suspect || Outstanding(Step(cfg, s, e), user)
  {
    var t := Step(cfg, s, e);
    if e.Deliver? {
      assert t.queue[k - 1] == s.queue[k];
    } else if e.Lose? && e.index < |s.queue| {
      if k != e.index {
        DropKeeps(s.queue, e.index, k);
      }
    } else {
      assert t.queue[k] == s.queue[k];
    }
  }

  /** A clear stays on its way until it is delivered, unless it is lost, which is recorded. */
  lemma OutstandingUntilDelivered(cfg: Config, s: State, e: Event, user: string)
    requires s.history != []
    requires user != "" && (user in s.suspect || Outstanding(s, user))
    requires e.Deliver? ==> s.queue == [] || !Evicts(s.queue[0], user)
    ensures user in Step(cfg, s, e).suspect || Outstanding(Step(cfg, s, e), user)
  {
    if user in s.unsent {
      UnsentUntilPublished(cfg, s, e, user);
    } else if user !in s.suspect {
      var k :| 0 <= k < |s.queue| && Evicts(s.queue[k], user);
      QueuedUntilDelivered(cfg, s, e, user, k);
    }
  }

  /** The event writes to the user's settings. */
  predicate Writes(e: Event, user: string) {
    e.Write? && e.user == user && Bound(user, e.change) && !e.reply.Unreachable?
  }

  // ---------- every step keeps a settled user settled ----------

  lemma KeysSettle(entries: seq<string>, s: State, t: State, user: string)
    requires s.history != [] && t.history != [] && HitsRight(entries, s, user)
    requires s.now <= t.now && t.fills == s.fills && SameSettings(Current(s), Current(t), user)
    requires forall key :: key in t.items ==> key in s.items && t.items[key] == s.items[key]
    ensures HitsRight(entries, t, user)
  {
    forall kind, name ensures SettledKey(entries, t, kind, user, name) {
      assert SettledKey(entries, s, kind, user, name);
    }
  }

  lemma FlightsSettle(entries: seq<string>, s: State, t: State, user: string)
    requires s.history != [] && t.history != [] && FlightsRight(entries, s, user)
    requires SameSettings(Current(s), Current(t), user)
    requires forall id :: id in t.flights && t.flights[id].user == user ==>
               (id in s.flights && t.flights[id] == s.flights[id]) || t.flights[id].views == []
    ensures FlightsRight(entries, t, user)
  {
    forall id | id in t.flights && t.flights[id].user == user
      ensures !Outdated(entries, Current(t), t.flights[id])
    {
      if t.flights[id].views != [] {
        assert !Outdated(entries, Current(s), s.flights[id]);
      }
    }
  }

  lemma ShrinkSettles(users: set<string>, entries: seq<string>, s: State, t: State, user: string)
    requires s.history != [] && Settled(entries, s, user) && Shrinks(users, s, t)
    ensures Settled(entries, t, user)
  {
    KeysSettle(entries, s, t, user);
    FlightsSettle(entries, s, t, user);
  }

  lemma OtherWriteSettles(entries: seq<string>, s: State, e: Event, user: string)
    requires s.history != [] && Settled(entries, s, user) && e.Write? && !Writes(e, user)
    ensures Settled(entries, WriteStep(s, e.user, e.change, e.reply), user)
  {
    var t := WriteStep(s, e.user, e.change, e.reply);
    OtherWriteKeepsSettings(s, e.user, e.change, e.reply, user);
    KeysSettle(entries, s, t, user);
    FlightsSettle(entries, s, t, user);
  }

  lemma OtherWriteKeepsSettings(s: State, writer: string, change: Change, reply: Reply, user: string)
    requires s.history != [] && (writer == user ==> !Bound(writer, change) || reply.Unreachable?)
    ensures var t := WriteStep(s, writer, change, reply);
            && t.history != [] && SameSettings(Current(s), Current(t), user)
            && t.now == s.now && t.fills == s.fills && t.items == s.items && t.flights == s.flights
  {
    if writer != user {
      OtherUsersUnchanged(Current(s), writer, change, user);
    }
    WriteCurrent(s, writer, change, reply);
  }

  lemma WriteCurrent(s: State, writer: string, change: Change, reply: Reply)
    requires s.history != []
    ensures var t := WriteStep(s, writer, change, reply);
            && t.history != [] && t.now == s.now && t.fills == s.fills && t.items == s.items && t.flights == s.flights
            && Current(t) == if !Bound(writer, change) || reply.Unreachable? then Current(s)
                             else Changed(Current(s), writer, change)
  {
  }

  lemma TargetTurn(targets: map<string, string>, ps: seq<string>, n: nat)
    requires n < |ps|
    ensures FirstTarget(targets, ps[n..]) ==
            if HasAt(targets, ps[n]) then targets[ps[n]]
            else if n + 1 == |ps| then "" else FirstTarget(targets, ps[n + 1..])
  {
    assert ps[n..][0] == ps[n] && ps[n..][1..] == ps[n + 1..];
  }

  lemma DueUnread(entries: seq<string>, store: Store, f: Flight)
    requires f.views == [] && f.answer.None?
    ensures Due(entries, store, f) == Right(f.kind, entries, store, f.user, f.name)
  {
    assert PatternsOf(f.name)[0..] == PatternsOf(f.name);
  }

  /** A command that sees the current store leaves what is due as it was. */
  lemma CommandKeepsDue(cfg: Config, f: Flight, store: Store, view: View, reachable: bool)
    requires f.kind.Redirecting? && f.answer.None? && |f.views| < |PatternsOf(f.name)|
    ensures Due(cfg.entries, store, Command(cfg, f, store, view, reachable)) == Due(cfg.entries, store, f)
  {
    HgetKeepsDue(f, PatternsOf(f.name), TargetsOf(store, f.user), view);
  }

  lemma HgetKeepsDue(f: Flight, ps: seq<string>, targets: map<string, string>, view: View)
    requires f.answer.None? && |f.views| < |ps|
    ensures var g := Hget(f, ps, targets, view);
            && g.kind == f.kind && g.user == f.user && g.name == f.name && |g.views| == |f.views| + 1
            && (g.answer.None? ==> |g.views| < |ps|)
            && Target(FirstTarget(targets, ps[|f.views|..])) ==
               if g.answer.Some? then g.answer.value else Target(FirstTarget(targets, ps[|g.views|..]))
  {
    TargetTurn(targets, ps, |f.views|);
  }

  lemma CommandStaysRight(cfg: Config, history: seq<Version>, f: Flight, store: Store, view: View, reachable: bool)
    requires f.answer.None? && AnswerOk(cfg.entries, history, f) && !Outdated(cfg.entries, store, f)
    ensures !Outdated(cfg.entries, store, Command(cfg, f, store, view, reachable))
  {
    if f.kind.Redirecting? {
      CommandKeepsDue(cfg, f, store, view, reachable);
      if f.views == [] {
        DueUnread(cfg.entries, store, f);
      }
    }
  }

  lemma ReadFlightsRight(cfg: Config, s: State, id: nat, reachable: bool, user: string)
    requires s.history != [] && FlightsRight(cfg.entries, s, user)
    requires id in s.flights && s.flights[id].answer.None? && AnswerOk(cfg.entries, s.history, s.flights[id])
    ensures FlightsRight(cfg.entries, ReadStep(cfg, s, id, reachable), user)
  {
    var t, f, view := ReadStep(cfg, s, id, reachable), s.flights[id], Now(s);
    forall k | k in t.flights && t.flights[k].user == user
      ensures !Outdated(cfg.entries, Current(t), t.flights[k])
    {
      if k == id {
        CommandStaysRight(cfg, s.history, f, Current(s), view, reachable);
      } else {
        assert !Outdated(cfg.entries, Current(s), s.flights[k]);
      }
    }
  }

  lemma ReadSettles(cfg: Config, s: State, id: nat, reachable: bool, user: string)
    requires s.history != [] && Settled(cfg.entries, s, user)
    requires id in s.flights ==> AnswerOk(cfg.entries, s.history, s.flights[id])
    ensures Settled(cfg.entries, ReadStep(cfg, s, id, reachable), user)
  {
    KeysSettle(cfg.entries, s, ReadStep(cfg, s, id, reachable), user);
    if id in s.flights && s.flights[id].answer.None? {
      ReadFlightsRight(cfg, s, id, reachable, user);
    }
  }

  lemma FinishSettlesKey(entries: seq<string>, s: State, id: nat, kind: Kind, user: string, name: string)
    requires s.history != [] && id in s.flights && s.flights[id].answer.Some?
    requires var f := s.flights[id];
             KeyOf(kind, user, name) == KeyOf(f.kind, f.user, f.name) ==>
               kind == f.kind && user == f.user && name == f.name && !Outdated(entries, Current(s), f)
    requires SettledKey(entries, s, kind, user, name)
    ensures SettledKey(entries, FinishStep(s, id), kind, user, name)
  {
    var f, t, key := s.flights[id], FinishStep(s, id), KeyOf(kind, user, name);
    if key == KeyOf(f.kind, f.user, f.name) {
      FinishedFillIsLive(s, id);
    } else {
      assert key in t.items ==> key in s.items && t.items[key] == s.items[key];
      assert key in t.fills ==> key in s.fills && t.fills[key] == s.fills[key];
    }
  }

  lemma FinishSettles(users: set<string>, entries: seq<string>, s: State, id: nat, user: string)
    requires s.history != [] && Settled(entries, s, user) && Apart(users) && user in users
    requires id in s.flights ==> s.flights[id].user in users
    ensures Settled(entries, FinishStep(s, id), user)
  {
    if id in s.flights && s.flights[id].answer.Some? {
      var t := FinishStep(s, id);
      forall kind, name ensures SettledKey(entries, t, kind, user, name) {
        var f := s.flights[id];
        assert SettledKey(entries, s, kind, user, name);
        KeysApart(users, kind, user, name, f.kind, f.user, f.name);
        FinishSettlesKey(entries, s, id, kind, user, name);
      }
      FlightsSettle(entries, s, t, user);
    }
  }

  /** Nothing but a write to the user's own settings unsettles a settled user. */
  lemma SettledUntilWritten(users: set<string>, cfg: Config, s: State, e: Event, user: string)
    requires Accounted(users, cfg.entries, s) && Settled(cfg.entries, s, user) && Apart(users) && user in users
    requires !Writes(e, user) && LooksUp(e, users)
    ensures Settled(cfg.entries, Step(cfg, s, e), user)
  {
    match e {
      case Write(_, _, _) => OtherWriteSettles(cfg.entries, s, e, user);
      case Read(id, reachable) =>
        if id in s.flights { FlightKnown(users, cfg.entries, s, id); }
        ReadSettles(cfg, s, id, reachable, user);
      case Finish(id) =>
        if id in s.flights { FlightKnown(users, cfg.entries, s, id); }
        FinishSettles(users, cfg.entries, s, id, user);
      case _ => QuietStepSettles(users, cfg, s, e, user);
    }
  }

  lemma QuietStepSettles(users: set<string>, cfg: Config, s: State, e: Event, user: string)
    requires s.history != [] && Settled(cfg.entries, s, user)
    requires !e.Write? && !e.Read? && !e.Finish? && LooksUp(e, users)
    ensures Settled(cfg.entries, Step(cfg, s, e), user)
  {
    StepShrinks(users, cfg, s, e);
    ShrinkSettles(users, cfg.entries, s, Step(cfg, s, e), user);
  }

  /** A delivered clear leaves the user no hit at all. */
  lemma ClearLeavesNoHit(users: set<string>, entries: seq<string>, s: State, user: string, kind: Kind, name: string)
    requires s.history != [] && Apart(users) && user in users
    requires s.queue != [] && Evicts(s.queue[0], user)
    ensures !Live(DeliverStep(entries, s).items, KeyOf(kind, user, name), s.now)
  {
    SweepIsOwn(users, user, kind, user, name);
    ClearIsExact(s.items, user, s.now, KeyOf(kind, user, name));
  }

  /** Delivering a clear settles its user, provided no lookup still holds an outdated answer. */
  lemma ClearSettles(users: set<string>, cfg: Config, s: State, user: string)
    requires s.history != [] && Apart(users) && user in users
    requires s.queue != [] && Evicts(s.queue[0], user) && FlightsRight(cfg.entries, s, user)
    ensures Settled(cfg.entries, DeliverStep(cfg.entries, s), user)
  {
    var t := DeliverStep(cfg.entries, s);
    forall kind, name ensures SettledKey(cfg.entries, t, kind, user, name) {
      ClearLeavesNoHit(users, cfg.entries, s, user, kind, name);
    }
    FlightsSettle(cfg.entries, s, t, user);
  }

  // ---------- every run converges ----------

  ghost predicate Converging(entries: seq<string>, s: State, user: string)
    requires s.history != []
  {
    user in s.suspect || Outstanding(s, user) || Settled(entries, s, user)
  }

  lemma StepConverges(users: set<string>, cfg: Config, s: State, e: Event, user: string)
    requires Accounted(users, cfg.entries, s) && Apart(users) && user in users && user != ""
    requires Converging(cfg.entries, s, user) && LooksUp(e, users)
    ensures Converging(cfg.entries, Step(cfg, s, e), user)
  {
    var t := Step(cfg, s, e);
    if e.Deliver? && s.queue != [] && Evicts(s.queue[0], user) {
      if user !in t.suspect {
        ClearSettles(users, cfg, s, user);
      }
    } else if user in s.suspect || Outstanding(s, user) {
      OutstandingUntilDelivered(cfg, s, e, user);
    } else if Writes(e, user) {
      assert e.reply.Acked? ==> t.unsent[|s.unsent|] == user;
    } else {
      SettledUntilWritten(users, cfg, s, e, user);
    }
  }

  lemma {:induction false} RunConverges(users: set<string>, cfg: Config, store: Store, events: seq<Event>, user: string)
    requires Apart(users) && user in users && LookupsBy(users, events) && user != ""
    ensures Converging(cfg.entries, Run(cfg, Init(store), events), user)
  {
    if events == [] {
      assert Settled(cfg.entries, Init(store), user);
    } else {
      var init := events[..|events| - 1];
      RunConverges(users, cfg, store, init, user);
      RunKeepsAccounts(users, cfg, Init(store), init);
      StepConverges(users, cfg, Run(cfg, Init(store), init), events[|events| - 1], user);
    }
  }

  /** Quiescent convergence. In every interleaving, once no clear for the user is on its way and none was
      lost or overtaken by a slower lookup, every hit that came from the store, for a block check or a
      redirect, answers as the current store does, and so will every lookup in flight. */
  lemma QuiescentConvergence(users: set<string>, cfg: Config, store: Store, events: seq<Event>,
                             kind: Kind, user: string, domain: string)
    requires Apart(users) && user in users && LookupsBy(users, events) && user != ""
    requires var s := Run(cfg, Init(store), events); !Outstanding(s, user) && user !in s.suspect
    ensures var s := Run(cfg, Init(store), events);
            var name := Normalize(domain);
            var key := KeyOf(kind, user, name);
            && (Live(s.items, key, s.now) && key in s.fills && s.fills[key].flight.views != [] ==>
                  s.items[key].value == Right(kind, cfg.entries, Current(s), user, name))
            && (forall id :: id in s.flights && s.flights[id].user == user ==>
                  !Outdated(cfg.entries, Current(s), s.flights[id]))
  {
    RunConverges(users, cfg, store, events, user);
    assert SettledKey(cfg.entries, Run(cfg, Init(store), events), kind, user, Normalize(domain));
  }

  // ---------- one delivery ----------

  /** Lookups by these users, and no write to this one. */
  predicate Unwritten(users: set<string>, events: seq<Event>, user: string) {
    forall i :: 0 <= i < |events| ==> LooksUp(events[i], users) && !Writes(events[i], user)
  }

  lemma {:induction false} SettledWhileUnwritten(users: set<string>, cfg: Config, s: State, user: string, later: seq<Event>)
    requires Accounted(users, cfg.entries, s) && Settled(cfg.entries, s, user)
    requires Apart(users) && user in users && Unwritten(users, later, user)
    ensures Accounted(users, cfg.entries, Run(cfg, s, later)) && Settled(cfg.entries, Run(cfg, s, later), user)
  {
    if later != [] {
      var init, e := later[..|later| - 1], later[|later| - 1];
      SettledWhileUnwritten(users, cfg, s, user, init);
      SettledUntilWritten(users, cfg, Run(cfg, s, init), e, user);
      StepKeepsAccounts(users, cfg, Run(cfg, s, init), e);
    }
  }

  lemma DeliverKeepsAccounts(users: set<string>, entries: seq<string>, s: State)
    requires Accounted(users, entries, s)
    ensures Accounted(users, entries, DeliverStep(entries, s))
  {
    DeliverShrinks(users, entries, s);
    ShrinkKeepsAccounts(users, entries, s, DeliverStep(entries, s));
  }

  /** A clear delivered when no lookup of the user holds an outdated answer keeps the user settled through
      every continuation that does not write to that user. */
  lemma SettledAfterClear(users: set<string>, cfg: Config, s: State, user: string, later: seq<Event>)
    requires Accounted(users, cfg.entries, s) && Apart(users) && user in users && Unwritten(users, later, user)
    requires s.queue != [] && Evicts(s.queue[0], user) && FlightsRight(cfg.entries, s, user)
    ensures Settled(cfg.entries, Run(cfg, DeliverStep(cfg.entries, s), later), user)
  {
    DeliverKeepsAccounts(users, cfg.entries, s);
    ClearSettles(users, cfg, s, user);
    SettledWhileUnwritten(users, cfg, DeliverStep(cfg.entries, s), user, later);
  }

  /** Conversely a lookup with an outdated answer, left to finish, makes a wrong hit. */
  lemma OutdatedFills(cfg: Config, t: State, id: nat) returns (later: seq<Event>)
    requires t.history != [] && id in t.flights && AnswerOk(cfg.entries, t.history, t.flights[id])
    requires Outdated(cfg.entries, Current(t), t.flights[id])
    ensures forall i :: 0 <= i < |later| ==> !later[i].Write? && !later[i].Begin?
    ensures var f := t.flights[id]; !SettledKey(cfg.entries, Run(cfg, t, later), f.kind, f.user, f.name)
  {
    var commands, g := ReachesDue(cfg, t, id);
    later := commands + [Finish(id)];
    RunThenFinish(cfg, t, commands, id);
    WrongFill(cfg.entries, t, id, g);
  }

  lemma WrongFill(entries: seq<string>, t: State, id: nat, g: Flight)
    requires t.history != [] && g.answer.Some? && g.views != []
    requires g.answer.value != Right(g.kind, entries, Current(t), g.user, g.name)
    ensures !SettledKey(entries, FinishStep(With(t, id, Some(g)), id), g.kind, g.user, g.name)
  {
    FinishedFillIsLive(With(t, id, Some(g)), id);
  }

  lemma FinishedFillIsLive(u: State, id: nat)
    requires u.history != [] && id in u.flights && u.flights[id].answer.Some?
    ensures var f, t := u.flights[id], FinishStep(u, id);
            var key := KeyOf(f.kind, f.user, f.name);
            && Live(t.items, key, t.now) && t.items[key].value == f.answer.value
            && key in t.fills && t.fills[key].flight == f && Current(t) == Current(u)
  {
  }

  /** What a delivered clear achieves: every continuation that does not write to the user keeps all hits that
      come from the store right, if and only if no lookup of the user held an outdated answer when the clear
      was delivered. */
  lemma ClearHoldsIff(users: set<string>, cfg: Config, s: State, user: string)
    requires Accounted(users, cfg.entries, s) && Apart(users) && user in users
    requires s.queue != [] && Evicts(s.queue[0], user)
    ensures FlightsRight(cfg.entries, s, user) <==>
            forall later :: Unwritten(users, later, user) ==>
              HitsRight(cfg.entries, Run(cfg, DeliverStep(cfg.entries, s), later), user)
  {
    if FlightsRight(cfg.entries, s, user) {
      forall later | Unwritten(users, later, user)
        ensures HitsRight(cfg.entries, Run(cfg, DeliverStep(cfg.entries, s), later), user)
      {
        SettledAfterClear(users, cfg, s, user, later);
      }
    } else {
      var later := OutdatedSurvivesClear(users, cfg, s, user);
    }
  }

  lemma OutdatedSurvivesClear(users: set<string>, cfg: Config, s: State, user: string) returns (later: seq<Event>)
    requires Accounted(users, cfg.entries, s) && !FlightsRight(cfg.entries, s, user)
    requires s.queue != [] && Evicts(s.queue[0], user)
    ensures Unwritten(users, later, user)
    ensures !HitsRight(cfg.entries, Run(cfg, DeliverStep(cfg.entries, s), later), user)
  {
    var id := OutdatedFlight(users, cfg.entries, s, user);
    later := OutdatedAfterDelivery(cfg, s, id);
    WrongKey(cfg.entries, Run(cfg, DeliverStep(cfg.entries, s), later), s.flights[id].kind, user, s.flights[id].name);
  }

  lemma OutdatedFlight(users: set<string>, entries: seq<string>, s: State, user: string) returns (id: nat)
    requires s.history != [] && FlightsOk(users, entries, s.history, s.flights, s.now)
    requires !FlightsRight(entries, s, user)
    ensures id in s.flights && s.flights[id].user == user
    ensures Outdated(entries, Current(s), s.flights[id]) && AnswerOk(entries, s.history, s.flights[id])
  {
    id :| id in s.flights && s.flights[id].user == user && Outdated(entries, Current(s), s.flights[id]);
    FlightKnown(users, entries, s, id);
  }

  lemma OutdatedAfterDelivery(cfg: Config, s: State, id: nat) returns (later: seq<Event>)
    requires s.history != [] && id in s.flights
    requires Outdated(cfg.entries, Current(s), s.flights[id]) && AnswerOk(cfg.entries, s.history, s.flights[id])
    ensures forall i :: 0 <= i < |later| ==> !later[i].Write? && !later[i].Begin?
    ensures var f := s.flights[id];
            !SettledKey(cfg.entries, Run(cfg, DeliverStep(cfg.entries, s), later), f.kind, f.user, f.name)
  {
    DeliverKeepsFlights(cfg.entries, s);
    later := OutdatedFills(cfg, DeliverStep(cfg.entries, s), id);
  }

  lemma DeliverKeepsFlights(entries: seq<string>, s: State)
    requires s.history != []
    ensures var t := DeliverStep(entries, s); t.flights == s.flights && t.history == s.history && t.now == s.now
  {
  }

  lemma WrongKey(entries: seq<string>, s: State, kind: Kind, user: string, name: string)
    requires s.history != [] && !SettledKey(entries, s, kind, user, name)
    ensures !HitsRight(entries, s, user)
  {
  }

  // ---------- runs that lose nothing ----------

  /** The event keeps every clear: writes are acknowledged or not executed, publishes and deliveries work. */
  predicate Lossless(e: Event) {
    match e
    case Write(_, _, reply) => !reply.Lost?
    case Publish(_, ok) => ok
    case Lose(_) => false
    case _ => true
  }

  ghost predicate NoOutdatedFlights(entries: seq<string>, s: State)
    requires s.history != []
  {
    forall id :: id in s.flights ==> !Outdated(entries, Current(s), s.flights[id])
  }

  lemma LosslessStep(cfg: Config, s: State, e: Event)
    requires s.history != [] && s.suspect == {} && Lossless(e)
    requires e.Deliver? ==> NoOutdatedFlights(cfg.entries, s)
    ensures Step(cfg, s, e).suspect == {}
  {
  }

  /** No event of the run loses a clear, and none delivers one while a lookup holds an outdated answer. */
  ghost predicate LosslessRun(cfg: Config, s: State, events: seq<Event>)
    requires s.history != []
  {
    events == [] ||
    var init, e := events[..|events| - 1], events[|events| - 1];
    LosslessRun(cfg, s, init) && Lossless(e) && (e.Deliver? ==> NoOutdatedFlights(cfg.entries, Run(cfg, s, init)))
  }

  /** Nobody is suspect after a run that loses no clear and delivers none past a slower lookup. */
  lemma {:induction false} LosslessRunsHaveNoSuspects(cfg: Config, store: Store, events: seq<Event>)
    requires LosslessRun(cfg, Init(store), events)
    ensures Run(cfg, Init(store), events).suspect == {}
  {
    if events != [] {
      var init := events[..|events| - 1];
      LosslessRunsHaveNoSuspects(cfg, store, init);
      LosslessStep(cfg, Run(cfg, Init(store), init), events[|events| - 1]);
    }
  }

  // ---------- an outdated lookup is reachable ----------

  const BLOCK := "block"

  /** A lookup reads, a rule is added and announced, the clear is delivered, the lookup fills the cache. */
  function Overtaken(user: string, name: string): seq<Event> {
    [Begin(0, Blocking, user, name), Read(0, true)] + [Write(user, AddRule(name, BLOCK), Acked), Publish(0, true)]
    + [Deliver, Finish(0)]
  }

  /** The lookup has read the empty store. */
  function OldRead(user: string, name: string): State {
    Init(EMPTY).(flights := map[0 := Flight(Blocking, user, name, [View(0, 0)], Some(Verdict(false)))])
  }

  /** The rule has been added and its event is queued. */
  function Announced(user: string, name: string): State {
    var s := OldRead(user, name);
    s.(history := s.history + [Version(0, Changed(EMPTY, user, AddRule(name, BLOCK)), Some(Cause(user, AddRule(name, BLOCK))))],
       queue := [ConfigEvent(user, CLEAR_CACHE)])
  }

  lemma OvertakenReads(cfg: Config, user: string, name: string)
    requires cfg.enabled && Normalize(name) == name && !Fallback(cfg.entries, name)
    ensures Run(cfg, Init(EMPTY), [Begin(0, Blocking, user, name), Read(0, true)]) == OldRead(user, name)
  {
    assert RulesOf(EMPTY, user) == {};
    RunTwo(cfg, Init(EMPTY), Begin(0, Blocking, user, name), Read(0, true));
  }

  lemma OvertakenAnnounces(cfg: Config, user: string, name: string)
    requires user != "" && name != ""
    ensures Run(cfg, OldRead(user, name), [Write(user, AddRule(name, BLOCK), Acked), Publish(0, true)]) ==
            Announced(user, name)
  {
    RunTwo(cfg, OldRead(user, name), Write(user, AddRule(name, BLOCK), Acked), Publish(0, true));
  }

  lemma OvertakenDelivers(cfg: Config, user: string, name: string)
    requires user != ""
    ensures var s := Announced(user, name);
            var t := DeliverStep(cfg.entries, s);
            && t == s.(queue := [], suspect := {user})
  {
    var s := Announced(user, name);
    assert PatternsOf(name)[0] == name && name in RulesOf(Current(s), user);
    assert Outdated(cfg.entries, Current(s), s.flights[0]);
    assert !FlightsRight(cfg.entries, s, user);
    assert Clear(map[], user, 0) == map[];
  }

  lemma OvertakenFills(cfg: Config, user: string, name: string)
    requires user != ""
    ensures var s := Run(cfg, Announced(user, name), [Deliver, Finish(0)]);
            && s.items == map[BlockKey(user, name) := Item(Verdict(false), TTL)]
            && s.unsent == [] && s.queue == [] && user in s.suspect && s.now == 0
            && s.history == Announced(user, name).history
  {
    RunTwo(cfg, Announced(user, name), Deliver, Finish(0));
    OvertakenDelivers(cfg, user, name);
    FinishFills(Announced(user, name).(queue := [], suspect := {user}), 0);
  }

  lemma FinishFills(s: State, id: nat)
    requires id in s.flights && s.flights[id].answer.Some? && s.items == map[]
    ensures var f, t := s.flights[id], FinishStep(s, id);
            && t.items == map[KeyOf(f.kind, f.user, f.name) := Item(f.answer.value, s.now + TTL)]
            && t.unsent == s.unsent && t.queue == s.queue && t.suspect == s.suspect && t.now == s.now
            && t.history == s.history
  {
  }

  /** A lookup that reads before a rule is added and fills after the clear was delivered leaves the old
      verdict in the cache: nothing is on its way any more, yet the domain is allowed for another 60 s. */
  lemma LateFillSurvivesClear(cfg: Config, user: string, name: string, ms: nat)
    requires cfg.enabled && user != "" && name != "" && Normalize(name) == name
    requires !Fallback(cfg.entries, name) && ms <= TTL
    ensures var s := Step(cfg, Run(cfg, Init(EMPTY), Overtaken(user, name)), Tick(ms));
            && !Outstanding(s, user) && user in s.suspect
            && CheckStep(cfg, s.items, RulesOf(Current(s), user), user, name, s.now, s.now, true).1 == Allow
            && Decision(cfg.entries, RulesOf(Current(s), user), name)
  {
    RunThree(cfg, Init(EMPTY), [Begin(0, Blocking, user, name), Read(0, true)],
             [Write(user, AddRule(name, BLOCK), Acked), Publish(0, true)], [Deliver, Finish(0)]);
    OvertakenReads(cfg, user, name);
    OvertakenAnnounces(cfg, user, name);
    OvertakenFills(cfg, user, name);
    LateHit(cfg, Run(cfg, Init(EMPTY), Overtaken(user, name)), user, name, ms);
  }

  lemma LateHit(cfg: Config, s: State, user: string, name: string, ms: nat)
    requires Normalize(name) == name && ms <= TTL && s.now == 0 && s.history == Announced(user, name).history
    requires s.items == map[BlockKey(user, name) := Item(Verdict(false), TTL)]
    ensures CheckStep(cfg, s.items, RulesOf(Current(s), user), user, name, ms, ms, true).1 == Allow
    ensures Decision(cfg.entries, RulesOf(Current(s), user), name)
  {
    assert PatternsOf(name)[0] == name && name in RulesOf(Current(s), user);
  }
}
