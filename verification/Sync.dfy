/** Configuration events and the worker that turns them into cache evictions. */
module Sync {
  import opened Cache
  import opened Checker

  datatype ConfigEvent = ConfigEvent(user: string, action: string)

  const CLEAR_CACHE := "clear_cache"
  const UPDATE_RULE := "update_rule"

  datatype Validity = Valid | MissingUser | UnknownAction(action: string)

  function Validate(e: ConfigEvent): Validity {
    if e.user == "" then MissingUser
    else if e.action == CLEAR_CACHE || e.action == UPDATE_RULE then Valid
    else UnknownAction(e.action)
  }

  /** The one kind of event that evicts. */
  predicate Evicts(e: ConfigEvent, user: string) {
    e.user == user != "" && e.action == CLEAR_CACHE
  }

  function Handle(items: Items, e: ConfigEvent, now: nat): Items {
    if Evicts(e, e.user) then Clear(items, e.user, now) else items
  }

  /** Of all decoded events only "clear_cache" for a named user changes the cache. */
  lemma OnlyClearCacheEvicts(items: Items, e: ConfigEvent, now: nat)
    ensures Handle(items, e, now) == if e.user != "" && e.action == "clear_cache" then Clear(items, e.user, now) else items
    ensures Validate(e) == Valid <==> e.user != "" && e.action in ["clear_cache", "update_rule"]
  {
  }

  /** An event and when it is handled. */
  datatype Arrival = Arrival(event: ConfigEvent, at: nat)

  class Worker {
    const checker: Checker

    constructor (checker: Checker)
      ensures this.checker == checker
    {
      this.checker := checker;
    }

    /** Invalid events are dropped; update_rule events pass validation but evict nothing. */
    method HandleMessage(e: ConfigEvent, now: nat)
      modifies checker`cache
      ensures checker.cache == Handle(old(checker.cache), e, now)
    {
      var v := Validate(e);
      if !v.Valid? {
        return;
      }
      if e.action == CLEAR_CACHE {
        checker.ClearUserCache(e.user, now);
      }
    }

    /** Takes messages off the channel one by one. */
    method Consume(arrivals: seq<Arrival>)
      modifies checker`cache
      ensures checker.cache == HandleAll(old(checker.cache), arrivals)
    {
      for i := 0 to |arrivals|
        invariant checker.cache == HandleAll(old(checker.cache), arrivals[..i])
      {
        HandleMessage(arrivals[i].event, arrivals[i].at);
        assert arrivals[..i + 1][..i] == arrivals[..i];
      }
      assert arrivals[..|arrivals|] == arrivals;
    }
  }

  function HandleAll(items: Items, arrivals: seq<Arrival>): Items {
    if arrivals == [] then items
    else
      var last := arrivals[|arrivals| - 1];
      Handle(HandleAll(items, arrivals[..|arrivals| - 1]), last.event, last.at)
  }

  /** The arrival evicts the key: a valid clear_cache whose user's sweep covers it. */
  predicate Sweeps(a: Arrival, key: string) {
    Evicts(a.event, a.event.user) && ClearedBy(a.event.user, key)
  }

  /** After any messages, handled at any times up to now, a key can still be hit exactly if it could be
      without them and none of them was a valid clear_cache that covers it; its value is then untouched. */
  lemma {:induction false} MessagesEvictExactly(items: Items, arrivals: seq<Arrival>, now: nat, key: string)
    requires forall i :: 0 <= i < |arrivals| ==> arrivals[i].at <= now
    ensures var after := HandleAll(items, arrivals);
            && (Live(after, key, now) <==>
                  Live(items, key, now) && forall i :: 0 <= i < |arrivals| ==> !Sweeps(arrivals[i], key))
            && (key in after ==> key in items && after[key] == items[key])
  {
    if arrivals != [] {
      var init, last := arrivals[..|arrivals| - 1], arrivals[|arrivals| - 1];
      MessagesEvictExactly(items, init, now, key);
      assert arrivals == init + [last];
      ClearIsExact(HandleAll(items, init), last.event.user, last.at, key);
    }
  }

  /** Among users kept apart, the messages that cover a user's key are exactly the valid clear_cache events
      for that user. */
  lemma SweepsOwn(users: set<string>, a: Arrival, kind: Kind, owner: string, domain: string)
    requires Apart(users) && a.event.user in users && owner in users
    ensures Sweeps(a, KeyOf(kind, owner, domain)) <==> Evicts(a.event, owner)
  {
    SweepIsOwn(users, a.event.user, kind, owner, domain);
  }
}
