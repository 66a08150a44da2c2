/** The rule checker: block and redirect decisions for a user, answered from the cache or from Redis. */
module Checker {
  import opened Text
  import opened Patterns
  import opened Cache
  import opened Settings
  import opened Wrappers

  /** enabled is cleared for good when Redis does not answer at start-up. */
  datatype Config = Config(enabled: bool, entries: seq<string>)

  /** Panic stands for a failed type assertion on a cached value. */
  datatype Answer = Allow | Block | Panic

  function AnswerOf(blocked: bool): Answer {
    if blocked then Block else Allow
  }

  // ---------- specification ----------

  predicate StoreBlocks(rules: set<string>, domain: string) {
    exists p :: p in PatternsOf(domain) && p in rules
  }

  /** The decision when the store was read. */
  predicate Decision(entries: seq<string>, rules: set<string>, domain: string) {
    StoreBlocks(rules, domain) || Fallback(entries, domain)
  }

  /** The decision a lookup computes, with or without the store's help. */
  predicate Computed(cfg: Config, rules: set<string>, domain: string, reachable: bool) {
    if cfg.enabled && reachable then Decision(cfg.entries, rules, domain) else Fallback(cfg.entries, domain)
  }

  function CheckStep(cfg: Config, items: Items, rules: set<string>, user: string, domain: string,
                     now: nat, filled: nat, reachable: bool): (Items, Answer)
  {
    var name := Normalize(domain);
    var key := BlockKey(user, name);
    if Live(items, key, now) then
      (items, if items[key].value.Verdict? then AnswerOf(items[key].value.blocked) else Panic)
    else
      var blocked := Computed(cfg, rules, name, reachable);
      (Put(items, key, Verdict(blocked), filled), AnswerOf(blocked))
  }

  datatype Read = Failed | Found(ip: string)

  /** One HGET per candidate until one has a target; the read fails if the command budget runs out. */
  function ReadTargets(targets: map<string, string>, patterns: seq<string>, budget: nat): Read {
    if patterns == [] then Found("")
    else if budget == 0 then Failed
    else if patterns[0] in targets && targets[patterns[0]] != "" then Found(targets[patterns[0]])
    else ReadTargets(targets, patterns[1..], budget - 1)
  }

  /** A read that does not fail finds the first target. */
  lemma {:induction false} ReadFindsFirstTarget(targets: map<string, string>, patterns: seq<string>, budget: nat)
    ensures budget >= |patterns| ==> ReadTargets(targets, patterns, budget).Found?
    ensures ReadTargets(targets, patterns, budget).Found? ==>
              ReadTargets(targets, patterns, budget).ip == FirstTarget(targets, patterns)
  {
    if patterns != [] && budget > 0 {
      ReadFindsFirstTarget(targets, patterns[1..], budget - 1);
    }
  }

  function GetStep(cfg: Config, items: Items, targets: map<string, string>, user: string, domain: string,
                   now: nat, filled: nat, budget: nat): (Items, (string, bool))
  {
    var name := Normalize(domain);
    var key := RedirectKey(user, name);
    if Live(items, key, now) then
      (items, if items[key].value.Target? then (items[key].value.ip, true) else ("", false))
    else if !cfg.enabled then (items, ("", false))
    else
      match ReadTargets(targets, PatternsOf(name), budget)
      case Failed => (items, ("", false))
      case Found(ip) => (Put(items, key, Target(ip), filled), (ip, ip != ""))
  }

  /** An edit's effect on the cache: only an acknowledged write evicts, and only the edited name. */
  function EditStep(items: Items, user: string, domain: string, reply: Reply): Items {
    if reply.Acked? then Evict(items, RedirectKey(user, Normalize(domain))) else items
  }

  // ---------- what a call answers ----------

  /** The decision on the strings alone: an entry of the list covers the name, or Redis has a rule for it. */
  predicate Barred(cfg: Config, rules: set<string>, name: string, reachable: bool) {
    || (exists i :: 0 <= i < |cfg.entries| && Covers(cfg.entries[i], name))
    || (cfg.enabled && reachable && exists r :: r in rules && Matches(r, name))
  }

  lemma BarredIsComputed(cfg: Config, rules: set<string>, name: string, reachable: bool)
    ensures Computed(cfg, rules, name, reachable) <==> Barred(cfg, rules, name, reachable)
  {
    forall r ensures r in PatternsOf(name) <==> Matches(r, name) {
      PatternsAreMatches(r, name);
    }
  }

  /** A check that misses blocks exactly the barred names, and caches just that for 60 seconds, whether or not
      Redis answered. */
  lemma CheckDecides(cfg: Config, items: Items, rules: set<string>, user: string, domain: string,
                     now: nat, filled: nat, reachable: bool)
    requires !Live(items, BlockKey(user, Normalize(domain)), now)
    ensures var (after, answer) := CheckStep(cfg, items, rules, user, domain, now, filled, reachable);
            var barred := Barred(cfg, rules, Normalize(domain), reachable);
            && answer == (if barred then Block else Allow)
            && after == items[BlockKey(user, Normalize(domain)) := Item(Verdict(barred), filled + 60_000)]
  {
    BarredIsComputed(cfg, rules, Normalize(domain), reachable);
  }

  /** The verdict of a check stands for 60 seconds, whatever becomes of the rules and of Redis, and no longer:
      the next check then decides afresh. */
  lemma VerdictLastsAMinute(cfg: Config, items: Items, rules: set<string>, user: string, domain: string,
                            now: nat, filled: nat, reachable: bool,
                            newRules: set<string>, later: nat, refilled: nat, newReachable: bool)
    requires !Live(items, BlockKey(user, Normalize(domain)), now)
    ensures var (after, answer) := CheckStep(cfg, items, rules, user, domain, now, filled, reachable);
            var again := CheckStep(cfg, after, newRules, user, domain, later, refilled, newReachable);
            && (later <= filled + 60_000 ==> again == (after, answer))
            && (later > filled + 60_000 ==>
                  again.1 == if Barred(cfg, newRules, Normalize(domain), newReachable) then Block else Allow)
  {
    CheckDecides(cfg, items, rules, user, domain, now, filled, reachable);
    var after := CheckStep(cfg, items, rules, user, domain, now, filled, reachable).0;
    if later > filled + 60_000 {
      CheckDecides(cfg, after, newRules, user, domain, later, refilled, newReachable);
    }
  }

  /** The read fails if and only if its commands run out before the candidates do, and before a target. */
  lemma {:induction false} ReadFailsIff(targets: map<string, string>, patterns: seq<string>, budget: nat)
    ensures ReadTargets(targets, patterns, budget).Failed? <==>
            budget < |patterns| && forall i :: 0 <= i < budget ==> patterns[i] in targets ==> targets[patterns[i]] == ""
  {
    if patterns != [] && budget > 0 {
      ReadFailsIff(targets, patterns[1..], budget - 1);
      if patterns[0] !in targets || targets[patterns[0]] == "" {
        assert forall i :: 0 < i < budget && i < |patterns| ==> patterns[i] == patterns[1..][i - 1];
        assert forall i :: 0 <= i < budget - 1 && i < |patterns[1..]| ==> patterns[1..][i] == patterns[i + 1];
      }
    }
  }

  /** A redirect lookup that misses answers with the target of the most specific rule, if one has any, and caches
      the target, or that there is none, for 60 seconds. */
  lemma GetDecides(cfg: Config, items: Items, targets: map<string, string>, user: string, domain: string,
                   now: nat, filled: nat, budget: nat)
    requires !Live(items, RedirectKey(user, Normalize(domain)), now) && cfg.enabled && budget >= MAX_LABELS
    ensures var name := Normalize(domain);
            var (after, (ip, ok)) := GetStep(cfg, items, targets, user, domain, now, filled, budget);
            && (ok <==> ip != "") && (ok <==> exists r :: HasTarget(targets, r, name))
            && (forall r :: MostSpecific(targets, r, name) ==> ip == targets[r])
            && after == items[RedirectKey(user, name) := Item(Target(ip), filled + 60_000)]
  {
    ReadFindsFirstTarget(targets, PatternsOf(Normalize(domain)), budget);
    LookupIsMostSpecific(targets, Normalize(domain));
  }

  /** Without Redis, or when its commands fail before a target is found, nothing is answered and nothing cached. */
  lemma GetFails(cfg: Config, items: Items, targets: map<string, string>, user: string, domain: string,
                 now: nat, filled: nat, budget: nat)
    requires !Live(items, RedirectKey(user, Normalize(domain)), now)
    requires cfg.enabled ==> ReadTargets(targets, PatternsOf(Normalize(domain)), budget).Failed?
    ensures GetStep(cfg, items, targets, user, domain, now, filled, budget) == (items, ("", false))
  {
  }

  /** A redirect answer, the empty one included, stands for 60 seconds; a hit on the empty one reads as found. */
  lemma RedirectLastsAMinute(cfg: Config, items: Items, user: string, domain: string, ip: string, filled: nat,
                             targets: map<string, string>, later: nat, refilled: nat, budget: nat)
    requires RedirectKey(user, Normalize(domain)) in items
    requires items[RedirectKey(user, Normalize(domain))] == Item(Target(ip), filled + 60_000)
    ensures later <= filled + 60_000 ==>
              GetStep(cfg, items, targets, user, domain, later, refilled, budget) == (items, (ip, true))
    ensures later > filled + 60_000 ==> !Live(items, RedirectKey(user, Normalize(domain)), later)
  {
  }

  // ---------- implementation ----------

  class Checker {
    var cache: Items
    const rdb: Redis
    const entries: seq<string>
    var enabled: bool

    constructor (rdb: Redis, pong: bool)
      ensures cache == map[] && this.rdb == rdb && entries == FALLBACK && enabled == pong
    {
      cache := map[];
      this.rdb := rdb;
      entries := FALLBACK;
      enabled := pong;
    }

    function Cfg(): Config
      reads this`enabled
    {
      Config(enabled, entries)
    }

    method CheckRedis(domain: string, user: string, reachable: bool) returns (blocked: bool, ok: bool)
      ensures ok == reachable
      ensures blocked == (reachable && StoreBlocks(RulesOf(rdb.store, user), domain))
    {
      var patterns := GeneratePatterns(domain);
      if !reachable {
        return false, false;
      }
      var vals := rdb.SMIsMember(user, patterns);
      for i := 0 to |vals|
        invariant forall j :: 0 <= j < i ==> !vals[j]
      {
        if vals[i] {
          assert patterns[i] in PatternsOf(domain);
          return true, true;
        }
      }
      return false, true;
    }

    method Check(user: string, domain: string, now: nat, filled: nat, reachable: bool) returns (answer: Answer)
      modifies this`cache
      ensures (cache, answer) ==
              CheckStep(Cfg(), old(cache), RulesOf(rdb.store, user), user, domain, now, filled, reachable)
    {
      var name := TrimDot(domain);
      name := ToLower(name);
      var key := user + ":" + name;
      if Live(cache, key, now) {
        var val := cache[key].value;
        return if val.Verdict? then AnswerOf(val.blocked) else Panic;
      }
      var blocked := false;
      if enabled {
        var ok;
        blocked, ok := CheckRedis(name, user, reachable);
      }
      if !blocked {
        var code := FallbackCheck(entries, name);
        blocked := code == 1;
      }
      cache := Put(cache, key, Verdict(blocked), filled);
      return AnswerOf(blocked);
    }

    method RedisGetRedirect(user: string, domain: string, budget: nat) returns (read: Read)
      ensures read == ReadTargets(TargetsOf(rdb.store, user), PatternsOf(domain), budget)
    {
      var patterns := GeneratePatterns(domain);
      var targets := TargetsOf(rdb.store, user);
      var i := 0;
      while i < |patterns|
        invariant i <= |patterns| && i <= budget
        invariant ReadTargets(targets, patterns, budget) == ReadTargets(targets, patterns[i..], budget - i)
      {
        if i == budget {
          return Failed;
        }
        if patterns[i] in targets {
          var ip := targets[patterns[i]];
          if ip != "" {
            return Found(ip);
          }
        }
        assert patterns[i..][1..] == patterns[i + 1..];
        i := i + 1;
      }
      return Found("");
    }

    method GetRedirect(user: string, domain: string, now: nat, filled: nat, budget: nat)
      returns (ip: string, ok: bool)
      modifies this`cache
      ensures (cache, (ip, ok)) ==
              GetStep(Cfg(), old(cache), TargetsOf(rdb.store, user), user, domain, now, filled, budget)
    {
      var name := TrimDot(domain);
      name := ToLower(name);
      var key := "redirect:" + user + ":" + name;
      if Live(cache, key, now) {
        var val := cache[key].value;
        if val.Target? {
          return val.ip, true;
        }
        return "", false;
      }
      if enabled {
        var read := RedisGetRedirect(user, name, budget);
        if read.Found? {
          if read.ip != "" {
            cache := Put(cache, key, Target(read.ip), filled);
            return read.ip, true;
          }
          cache := Put(cache, key, Target(""), filled);
          return "", false;
        }
      }
      return "", false;
    }

    method SetRedirect(user: string, domain: string, target: string, reply: Reply) returns (ok: bool)
      modifies this`cache, rdb
      ensures ok == reply.Acked?
      ensures rdb.store == if reply.Unreachable? then old(rdb.store)
                           else SetTargets(old(rdb.store), user,
                                           TargetsOf(old(rdb.store), user)[Normalize(domain) := target])
      ensures cache == EditStep(old(cache), user, domain, reply)
    {
      var name := ToLower(TrimDot(domain));
      ok := rdb.HSet(user, name, target, reply);
      if ok {
        cache := Evict(cache, "redirect:" + user + ":" + name);
      }
    }

    method RemoveRedirect(user: string, domain: string, reply: Reply) returns (ok: bool)
      modifies this`cache, rdb
      ensures ok == reply.Acked?
      ensures rdb.store == if reply.Unreachable? then old(rdb.store)
                           else SetTargets(old(rdb.store), user,
                                           TargetsOf(old(rdb.store), user) - {Normalize(domain)})
      ensures cache == EditStep(old(cache), user, domain, reply)
    {
      var name := ToLower(TrimDot(domain));
      ok := rdb.HDel(user, name, reply);
      if ok {
        cache := Evict(cache, "redirect:" + user + ":" + name);
      }
    }

    /** Deletes every visible entry under one of the user's two prefixes, in any order. */
    method ClearUserCache(user: string, now: nat)
      modifies this`cache
      ensures cache == Clear(old(cache), user, now)
    {
      var prefix, redirectPrefix := user + ":", "redirect:" + user + ":";
      var seen := set key | key in cache && Live(cache, key, now);
      ghost var all := seen;
      ghost var before := cache;
      while seen != {}
        invariant seen <= all
        invariant cache == before - set key | key in all - seen && ClearedBy(user, key)
        decreases seen
      {
        var key :| key in seen;
        if HasPrefix(key, prefix) || HasPrefix(key, redirectPrefix) {
          cache := Evict(cache, key);
        }
        seen := seen - {key};
      }
    }
  }

  // ---------- runs ----------

  /** One call on the checker, with what the environment does during it. */
  datatype Op =
    | DoCheck(user: string, domain: string, now: nat, filled: nat, reachable: bool)
    | DoGet(user: string, domain: string, now: nat, filled: nat, budget: nat)
    | DoEdit(user: string, domain: string, edit: Option<string>, reply: Reply)
    | DoClear(user: string, now: nat)

  /** A redirect edit either sets a target or removes the name. */
  function Edited(targets: map<string, string>, name: string, edit: Option<string>): map<string, string> {
    match edit
    case Some(target) => targets[name := target]
    case None => targets - {name}
  }

  datatype Session = Session(items: Items, store: Store)

  function Apply(cfg: Config, s: Session, op: Op): Session {
    match op
    case DoCheck(u, d, now, filled, reachable) =>
      s.(items := CheckStep(cfg, s.items, RulesOf(s.store, u), u, d, now, filled, reachable).0)
    case DoGet(u, d, now, filled, budget) =>
      s.(items := GetStep(cfg, s.items, TargetsOf(s.store, u), u, d, now, filled, budget).0)
    case DoEdit(u, d, edit, reply) =>
      s.(items := EditStep(s.items, u, d, reply),
         store := if reply.Unreachable? then s.store
                  else SetTargets(s.store, u, Edited(TargetsOf(s.store, u), Normalize(d), edit)))
    case DoClear(u, now) => s.(items := Clear(s.items, u, now))
  }

  function RunOps(cfg: Config, s: Session, ops: seq<Op>): Session {
    if ops == [] then s else Apply(cfg, RunOps(cfg, s, ops[..|ops| - 1]), ops[|ops| - 1])
  }

  /** What a check of the domain meets after the run. */
  predicate Panics(cfg: Config, store: Store, ops: seq<Op>, user: string, domain: string,
                   now: nat, filled: nat, reachable: bool)
  {
    var s := RunOps(cfg, Session(map[], store), ops);
    CheckStep(cfg, s.items, RulesOf(s.store, user), user, domain, now, filled, reachable).1.Panic?
  }

  lemma StepKeepsVerdicts(cfg: Config, s: Session, op: Op)
    requires VerdictsInPlace(s.items)
    ensures VerdictsInPlace(Apply(cfg, s, op).items)
  {
    if op.DoGet? {
      SafeKeys(op.user, Normalize(op.domain));
    }
  }

  lemma {:induction false} RunsKeepVerdicts(cfg: Config, store: Store, ops: seq<Op>)
    ensures VerdictsInPlace(RunOps(cfg, Session(map[], store), ops).items)
  {
    if ops != [] {
      var init := ops[..|ops| - 1];
      RunsKeepVerdicts(cfg, store, init);
      StepKeepsVerdicts(cfg, RunOps(cfg, Session(map[], store), init), ops[|ops| - 1]);
    }
  }

  lemma StepKeepsTargets(cfg: Config, s: Session, op: Op)
    requires TargetsInPlace(s.items) && (op.DoCheck? ==> Safe(op.user))
    ensures TargetsInPlace(Apply(cfg, s, op).items)
  {
    if op.DoCheck? {
      SafeKeys(op.user, Normalize(op.domain));
    }
  }

  lemma {:induction false} RunsKeepTargets(cfg: Config, store: Store, ops: seq<Op>)
    requires forall i :: 0 <= i < |ops| && ops[i].DoCheck? ==> Safe(ops[i].user)
    ensures TargetsInPlace(RunOps(cfg, Session(map[], store), ops).items)
  {
    if ops != [] {
      var init := ops[..|ops| - 1];
      RunsKeepTargets(cfg, store, init);
      StepKeepsTargets(cfg, RunOps(cfg, Session(map[], store), init), ops[|ops| - 1]);
    }
  }

  /** Key discipline. In every run, by any users, the block keys of safe users hold booleans; if the block
      checks are for safe users only, every redirect key, of any user, holds a string. */
  lemma RunsKeepTypes(cfg: Config, store: Store, ops: seq<Op>, user: string, name: string)
    ensures var items := RunOps(cfg, Session(map[], store), ops).items;
            && (Safe(user) && BlockKey(user, name) in items ==> items[BlockKey(user, name)].value.Verdict?)
            && ((forall i :: 0 <= i < |ops| && ops[i].DoCheck? ==> Safe(ops[i].user)) && RedirectKey(user, name) in items ==>
                  items[RedirectKey(user, name)].value.Target?)
  {
    SafeKeys(user, name);
    RunsKeepVerdicts(cfg, store, ops);
    if forall i :: 0 <= i < |ops| && ops[i].DoCheck? ==> Safe(ops[i].user) {
      RunsKeepTargets(cfg, store, ops);
    }
  }

  predicate OnlyVerdicts(items: Items) {
    forall key :: key in items ==> items[key].value.Verdict?
  }

  lemma {:induction false} DisabledHoldsNoTargets(cfg: Config, store: Store, ops: seq<Op>)
    requires !cfg.enabled
    ensures OnlyVerdicts(RunOps(cfg, Session(map[], store), ops).items)
  {
    if ops != [] {
      var init := ops[..|ops| - 1];
      DisabledHoldsNoTargets(cfg, store, init);
      var s := RunOps(cfg, Session(map[], store), init);
      assert OnlyVerdicts(Apply(cfg, s, ops[|ops| - 1]).items);
    }
  }

  /** In some run a block check for the user fails its type assertion. */
  ghost predicate CanPanic(cfg: Config, store: Store, user: string) {
    exists ops, domain, now, filled, reachable :: Panics(cfg, store, ops, user, domain, now, filled, reachable)
  }

  /** A redirect lookup for w leaves a string under a key that the user's check takes for a boolean. */
  lemma LookupThenCheckPanics(cfg: Config, store: Store, w: string, d: string, user: string, domain: string)
    requires cfg.enabled && BlockKey(user, Normalize(domain)) == RedirectKey(w, Normalize(d))
    ensures CanPanic(cfg, store, user)
  {
    var s := Session(map[], store);
    var get := DoGet(w, d, 0, 0, MAX_LABELS);
    assert [get][..0] == [];
    ReadFindsFirstTarget(TargetsOf(store, w), PatternsOf(Normalize(d)), MAX_LABELS);
    assert RunOps(cfg, s, [get]) == Apply(cfg, s, get);
    assert Panics(cfg, store, [get], user, domain, 0, 0, true);
  }

  lemma ColonDomain()
    ensures Normalize(":") == ":" && Normalize("") == ""
  {
    EndsInDot(":");
    EndsInDot("");
    AlreadyLower(":");
    AlreadyLower("");
  }

  /** The user "redirect:w" shares the keys of w's redirects, and "redirect" with ":" those of the user "". */
  lemma UnsafeKeyIsRedirectKey(user: string) returns (w: string, domain: string)
    requires !Safe(user)
    ensures BlockKey(user, Normalize(domain)) == RedirectKey(w, Normalize(""))
  {
    UnsafeUsers(user);
    ColonDomain();
    if user == "redirect" {
      w, domain := "", ":";
    } else {
      w, domain := user[9..], "";
      assert user == "redirect:" + w;
    }
  }

  /** A block check for a user can fail its type assertion, in some run, if and only if Redis is enabled and
      the user's ID is "redirect" or starts with "redirect:". */
  lemma PanicsIffUnsafe(cfg: Config, store: Store, user: string)
    ensures CanPanic(cfg, store, user) <==> cfg.enabled && !Safe(user)
    ensures !Safe(user) <==> user == "redirect" || HasPrefix(user, "redirect:")
  {
    UnsafeUsers(user);
    if cfg.enabled && !Safe(user) {
      var w, domain := UnsafeKeyIsRedirectKey(user);
      LookupThenCheckPanics(cfg, store, w, "", user, domain);
    }
    forall ops, domain, now, filled, reachable | Panics(cfg, store, ops, user, domain, now, filled, reachable)
      ensures cfg.enabled && !Safe(user)
    {
      PanickingUser(cfg, store, ops, user, domain, now, filled, reachable);
    }
  }

  lemma PanickingUser(cfg: Config, store: Store, ops: seq<Op>, user: string, domain: string,
                      now: nat, filled: nat, reachable: bool)
    requires Panics(cfg, store, ops, user, domain, now, filled, reachable)
    ensures cfg.enabled && !Safe(user)
  {
    RunsKeepVerdicts(cfg, store, ops);
    SafeKeys(user, Normalize(domain));
    if !cfg.enabled {
      DisabledHoldsNoTargets(cfg, store, ops);
      assert false;
    }
  }
}
