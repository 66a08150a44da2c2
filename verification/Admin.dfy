/** The administration API: every handler writes to Redis first and publishes a clear_cache event next. */
module Admin {
  import opened Text
  import opened Patterns
  import opened Checker
  import opened Settings
  import opened Sync
  import opened Wrappers

  /** A request, as decoded: rule requests carry an action, which no handler looks at; redirect requests carry
      a target, which only adding looks at. */
  datatype Change =
    | AddRule(domain: string, action: string)
    | RemoveRule(domain: string, action: string)
    | AddRedirect(domain: string, target: string)
    | RemoveRedirect(domain: string, target: string)

  /** The fields a request must carry: all of them, none empty. */
  predicate Bound(user: string, change: Change) {
    && user != "" && change.domain != ""
    && match change
       case AddRule(_, action) => action != ""
       case RemoveRule(_, action) => action != ""
       case AddRedirect(_, target) => target != ""
       case RemoveRedirect(_, target) => target != ""
  }

  /** The domain is stored as received: nothing lower-cases it or drops a trailing dot. */
  function Changed(store: Store, user: string, change: Change): Store {
    match change
    case AddRule(d, _) => SetRules(store, user, RulesOf(store, user) + {d})
    case RemoveRule(d, _) => SetRules(store, user, RulesOf(store, user) - {d})
    case AddRedirect(d, t) => SetTargets(store, user, TargetsOf(store, user)[d := t])
    case RemoveRedirect(d, _) => SetTargets(store, user, TargetsOf(store, user) - {d})
  }

  lemma OtherUsersUnchanged(store: Store, user: string, change: Change, other: string)
    requires user != other
    ensures var after := Changed(store, user, change);
            RulesOf(after, other) == RulesOf(store, other) && TargetsOf(after, other) == TargetsOf(store, other)
  {
    match change {
      case AddRule(_, _) =>
      case RemoveRule(_, _) =>
      case AddRedirect(_, _) =>
      case RemoveRedirect(_, _) =>
    }
  }

  /** What a change does to its user's redirects. */
  lemma OwnTargets(store: Store, user: string, change: Change)
    ensures TargetsOf(Changed(store, user, change), user) ==
            match change
            case AddRedirect(d, t) => Edited(TargetsOf(store, user), d, Some(t))
            case RemoveRedirect(d, _) => Edited(TargetsOf(store, user), d, None)
            case _ => TargetsOf(store, user)
  {
  }

  /** A request is complete exactly if none of its three fields is empty. */
  lemma BoundIffComplete(user: string, change: Change)
    ensures Bound(user, change) <==>
            "" !in [user, change.domain, if change.AddRule? || change.RemoveRule? then change.action else change.target]
  {
  }

  /** What a change does to its user's rules and redirects, name by name. */
  lemma ChangeTells(store: Store, user: string, change: Change, name: string)
    ensures var after := Changed(store, user, change);
            && (name in RulesOf(after, user) <==>
                  if change.AddRule? && name == change.domain then true
                  else if change.RemoveRule? && name == change.domain then false
                  else name in RulesOf(store, user))
            && (name in TargetsOf(after, user) <==>
                  if change.AddRedirect? && name == change.domain then true
                  else if change.RemoveRedirect? && name == change.domain then false
                  else name in TargetsOf(store, user))
            && (name in TargetsOf(after, user) ==>
                  TargetsOf(after, user)[name] ==
                  if change.AddRedirect? && name == change.domain then change.target else TargetsOf(store, user)[name])
  {
  }

  datatype Status = OK | BadRequest | InternalError

  class AdminService {
    const rdb: Redis
    var published: seq<ConfigEvent>

    constructor (rdb: Redis)
      ensures this.rdb == rdb && published == []
    {
      this.rdb := rdb;
      published := [];
    }

    method PublishClearCache(user: string, reachable: bool) returns (ok: bool)
      modifies this`published
      ensures ok == reachable
      ensures published == old(published) + if reachable then [ConfigEvent(user, CLEAR_CACHE)] else []
    {
      if reachable {
        published := published + [ConfigEvent(user, CLEAR_CACHE)];
      }
      ok := reachable;
    }

    /** Serves a rule or redirect change. A failed write publishes nothing, even if it was executed; a
        failed publish is logged and the request still succeeds. */
    method Serve(user: string, change: Change, reply: Reply, publishes: bool) returns (status: Status)
      modifies this`published, rdb
      ensures status == if !Bound(user, change) then BadRequest else if reply.Acked? then OK else InternalError
      ensures rdb.store == if !Bound(user, change) || reply.Unreachable? then old(rdb.store)
                           else Changed(old(rdb.store), user, change)
      ensures published == old(published) +
                           if status.OK? && publishes then [ConfigEvent(user, CLEAR_CACHE)] else []
    {
      var extra := if change.AddRule? || change.RemoveRule? then change.action else change.target;
      if user == "" || change.domain == "" || extra == "" {
        return BadRequest;
      }
      var ok;
      match change {
        case AddRule(d, _) => ok := rdb.SAdd(user, d, reply);
        case RemoveRule(d, _) => ok := rdb.SRem(user, d, reply);
        case AddRedirect(d, t) => ok := rdb.HSet(user, d, t, reply);
        case RemoveRedirect(d, _) => ok := rdb.HDel(user, d, reply);
      }
      if !ok {
        return InternalError;
      }
      var sent := PublishClearCache(user, publishes);
      return OK;
    }
  }

  // ---------- which stored names take effect ----------

  predicate NoUpper(s: string) {
    forall i :: 0 <= i < |s| ==> !('A' <= s[i] <= 'Z')
  }

  /** A matching rule is spelt as the end of the name it matches. */
  lemma MatchingRuleSpelling(rule: string, name: string)
    requires Matches(rule, name) && NoUpper(name) && !HasSuffix(name, ".")
    ensures NoUpper(rule) && !HasSuffix(rule, ".")
  {
    EndsInDot(name);
    EndsInDot(rule);
    if rule != name {
      var suffix := rule[1..];
      assert name[|name| - |suffix|..] == suffix;
      assert NoUpper(suffix) && rule == ['*'] + suffix;
      assert suffix[|suffix| - 1] == name[|name| - 1];
    }
  }

  lemma PlainSpellingIsNormal(s: string)
    requires NoUpper(s) && !HasSuffix(s, ".")
    ensures Normalize(s) == s && !HasSuffix(s, "..")
  {
    EndsInDot(s);
    assert TrimDot(s) == s;
    AlreadyLower(s);
  }

  /** The queries that miss no normalisation: names not ending in two dots. */
  ghost predicate Reachable(rule: string) {
    exists q :: !HasSuffix(q, "..") && rule in PatternsOf(Normalize(q))
  }

  /** The API stores a domain as received, while lookups lower-case theirs and drop its trailing dot. A stored
      rule or redirect name can match a query not ending in two dots if and only if it has neither an
      upper-case letter nor a trailing dot. */
  lemma StoredNameReachableIff(rule: string)
    ensures Reachable(rule) <==> NoUpper(rule) && !HasSuffix(rule, ".")
  {
    if NoUpper(rule) && !HasSuffix(rule, ".") {
      PlainSpellingIsNormal(rule);
      assert PatternsOf(Normalize(rule))[0] == rule;
    }
    forall q | !HasSuffix(q, "..") && rule in PatternsOf(Normalize(q))
      ensures NoUpper(rule) && !HasSuffix(rule, ".")
    {
      PatternsAreMatches(rule, Normalize(q));
      StillEndsInDot(q);
      MatchingRuleSpelling(rule, Normalize(q));
    }
  }

  /** For the two uses: a lone stored rule blocks some such query, and a lone stored redirect answers some
      such query, under exactly that condition. */
  lemma StoredNameTakesEffectIff(rule: string, ip: string)
    requires ip != ""
    ensures (exists q :: !HasSuffix(q, "..") && StoreBlocks({rule}, Normalize(q))) <==>
            NoUpper(rule) && !HasSuffix(rule, ".")
    ensures (exists q :: !HasSuffix(q, "..") && Lookup(map[rule := ip], Normalize(q)) == ip) <==>
            NoUpper(rule) && !HasSuffix(rule, ".")
  {
    StoredNameReachableIff(rule);
    forall q ensures StoreBlocks({rule}, Normalize(q)) <==> rule in PatternsOf(Normalize(q)) {
    }
    forall q ensures Lookup(map[rule := ip], Normalize(q)) == ip <==> rule in PatternsOf(Normalize(q)) {
      LoneTarget(rule, ip, Normalize(q));
    }
  }

  lemma LoneTarget(rule: string, ip: string, name: string)
    requires ip != ""
    ensures Lookup(map[rule := ip], name) == ip <==> rule in PatternsOf(name)
  {
    var ps := PatternsOf(name);
    var i := FirstTargetIndex(map[rule := ip], ps);
    if rule in ps {
      var j :| 0 <= j < |ps| && ps[j] == rule;
      assert i <= j;
    }
  }

  lemma OwnWildcardIsNormal(d: string)
    requires HasPrefix(d, "*.") && HasSuffix(Normalize(d), d[1..])
    ensures Normalize(d) == d
  {
    var name, rest := Normalize(d), d[1..];
    assert rest[0] == '.' && name[0] == Lower(d[0]) == '*';
    assert name[|name| - |rest|..][0] == '.';
    assert name == [name[0]] + rest && d == [d[0]] + rest;
  }

  /** A domain stored through the API matches a query for that very domain if and only if it was already
      written the way lookups write it. */
  lemma OwnNameMatchesIff(d: string)
    ensures d in PatternsOf(Normalize(d)) <==> Normalize(d) == d
  {
    PatternsAreMatches(d, Normalize(d));
    if HasPrefix(d, "*.") && HasSuffix(Normalize(d), d[1..]) {
      OwnWildcardIsNormal(d);
    }
  }
}
