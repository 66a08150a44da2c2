/** The per-user settings kept in Redis: a set of blocked patterns and a hash of redirect targets. */
module Settings {

  datatype Store = Store(blocked: map<string, set<string>>, redirects: map<string, map<string, string>>)

  const EMPTY := Store(map[], map[])

  function RulesOf(store: Store, user: string): set<string> {
    if user in store.blocked then store.blocked[user] else {}
  }

  function TargetsOf(store: Store, user: string): map<string, string> {
    if user in store.redirects then store.redirects[user] else map[]
  }

  function SetRules(store: Store, user: string, rules: set<string>): (s: Store)
    ensures forall u :: RulesOf(s, u) == if u == user then rules else RulesOf(store, u)
    ensures forall u :: TargetsOf(s, u) == TargetsOf(store, u)
  {
    store.(blocked := store.blocked[user := rules])
  }

  function SetTargets(store: Store, user: string, targets: map<string, string>): (s: Store)
    ensures forall u :: TargetsOf(s, u) == if u == user then targets else TargetsOf(store, u)
    ensures forall u :: RulesOf(s, u) == RulesOf(store, u)
  {
    store.(redirects := store.redirects[user := targets])
  }

  /** What became of a write command: executed and acknowledged, never executed, or executed with the
      reply lost on the way back. */
  datatype Reply = Acked | Unreachable | Lost

  class Redis {
    var store: Store

    constructor ()
      ensures store == EMPTY
    {
      store := EMPTY;
    }

    method SMIsMember(user: string, members: seq<string>) returns (vals: seq<bool>)
      ensures |vals| == |members|
      ensures forall i :: 0 <= i < |vals| ==> (vals[i] <==> members[i] in RulesOf(store, user))
    {
      var rules := RulesOf(store, user);
      vals := seq(|members|, i requires 0 <= i < |members| => members[i] in rules);
    }

    method SAdd(user: string, domain: string, reply: Reply) returns (ok: bool)
      modifies this
      ensures ok == reply.Acked?
      ensures store == if reply.Unreachable? then old(store)
                       else SetRules(old(store), user, RulesOf(old(store), user) + {domain})
    {
      if !reply.Unreachable? {
        store := SetRules(store, user, RulesOf(store, user) + {domain});
      }
      ok := reply.Acked?;
    }

    method SRem(user: string, domain: string, reply: Reply) returns (ok: bool)
      modifies this
      ensures ok == reply.Acked?
      ensures store == if reply.Unreachable? then old(store)
                       else SetRules(old(store), user, RulesOf(old(store), user) - {domain})
    {
      if !reply.Unreachable? {
        store := SetRules(store, user, RulesOf(store, user) - {domain});
      }
      ok := reply.Acked?;
    }

    method HSet(user: string, domain: string, target: string, reply: Reply) returns (ok: bool)
      modifies this
      ensures ok == reply.Acked?
      ensures store == if reply.Unreachable? then old(store)
                       else SetTargets(old(store), user, TargetsOf(old(store), user)[domain := target])
    {
      if !reply.Unreachable? {
        store := SetTargets(store, user, TargetsOf(store, user)[domain := target]);
      }
      ok := reply.Acked?;
    }

    method HDel(user: string, domain: string, reply: Reply) returns (ok: bool)
      modifies this
      ensures ok == reply.Acked?
      ensures store == if reply.Unreachable? then old(store)
                       else SetTargets(old(store), user, TargetsOf(old(store), user) - {domain})
    {
      if !reply.Unreachable? {
        store := SetTargets(store, user, TargetsOf(store, user) - {domain});
      }
      ok := reply.Acked?;
    }
  }
}
