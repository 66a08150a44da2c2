/** The query handler: rate limit, then block, then redirect, then forward. */
module Handler {
  import opened Text
  import opened Patterns
  import opened Cache
  import opened Settings
  import opened Checker
  import opened Rule
  import opened Wrappers
  import Limiter
  import Aggregator

  datatype Question = Question(name: string, qtype: nat)
  datatype Query = Query(id: nat, questions: seq<Question>)

  const TYPE_AAAA := 28

  datatype Rcode = NoError | ServFail | NxDomain | Refused
  datatype Record = A(name: string, ip: string) | AAAA(name: string, ip: string)
  datatype Response = Local(id: nat, rcode: Rcode, answer: seq<Record>) | FromUpstream(body: seq<int>)

  /** The world outside: which strings are IPv4 addresses, and what upstream answers, if it does. The
      empty string is no address. */
  datatype Network = Network(isIPv4: string -> bool, upstream: Query -> Option<seq<int>>)

  predicate Sane(net: Network) {
    !net.isIPv4("")
  }

  datatype Status = Allowed | Blocked | Redirected

  /** What one call to ProcessQuery leaves behind: the message written, if any, and the status logged. */
  datatype Outcome = Outcome(response: Option<Response>, status: Option<Status>) | Panicked

  /** The rate limiter's verdict; without a limiter, or when it fails, the query goes on. */
  datatype Gate = Off | Broken | Under | Over

  /** What else a call meets: the limiter's clocks and Redis, and what the log says of the client and the time. */
  datatype Surroundings = Surroundings(
    asked: nat, executed: int, reaped: bool, reply: Reply,
    start: int, clientIP: string, typeName: string, elapsed: nat,
    waiting: bool, delivery: Aggregator.Delivery)

  /** A call, with the cache times and the Redis behaviour it meets. */
  datatype Call = Call(user: string, query: Query, gate: Gate,
                       now: nat, checkFilled: nat, reachable: bool, later: nat, redirectFilled: nat, budget: nat)

  // ---------- messages ----------

  function Forward(net: Network, q: Query): Response {
    match net.upstream(q)
    case Some(body) => FromUpstream(body)
    case None => Local(q.id, ServFail, [])
  }

  function BlockResponse(q: Query): Response
    requires q.questions != []
  {
    var first := q.questions[0];
    Local(q.id, NxDomain, [if first.qtype == TYPE_AAAA then AAAA(first.name, "::") else A(first.name, "0.0.0.0")])
  }

  function RedirectResponse(net: Network, q: Query, ip: string): Response
    requires q.questions != []
  {
    if !net.isIPv4(ip) then Forward(net, q)
    else
      var first := q.questions[0];
      Local(q.id, NoError, if first.qtype == TYPE_AAAA then [] else [A(first.name, ip)])
  }

  /** What a query may be told locally: no address of the family it did not ask for (anything but AAAA counts
      as asking for IPv4), only records for its own name; a block never carries a usable address, and a
      redirect carries no address but a valid target. */
  lemma LocalAnswersFit(net: Network, q: Query, ip: string)
    requires q.questions != []
    ensures BlockResponse(q).Local? && BlockResponse(q).rcode == NxDomain
    ensures forall r :: r in BlockResponse(q).answer ==>
              r.name == q.questions[0].name && r.ip in {"0.0.0.0", "::"} && (r.AAAA? <==> q.questions[0].qtype == TYPE_AAAA)
    ensures RedirectResponse(net, q, ip).Local? && RedirectResponse(net, q, ip).rcode == NoError ==>
              forall r :: r in RedirectResponse(net, q, ip).answer ==>
                r.A? && q.questions[0].qtype != TYPE_AAAA && r == A(q.questions[0].name, ip) && net.isIPv4(ip)
    ensures q.questions[0].qtype != TYPE_AAAA && net.isIPv4(ip) ==>
              A(q.questions[0].name, ip) in RedirectResponse(net, q, ip).answer
    ensures !net.isIPv4(ip) ==> RedirectResponse(net, q, ip) == Forward(net, q)
  {
    assert A(q.questions[0].name, ip) in [A(q.questions[0].name, ip)];
  }

  // ---------- with the cache ----------

  function Process(net: Network, cfg: Config, store: Store, items: Items, c: Call): (Items, Outcome) {
    if c.gate.Over? then (items, Outcome(Some(Local(c.query.id, Refused, [])), None))
    else if c.query.questions == [] then (items, Outcome(None, None))
    else Respond(net, cfg, store, items, c)
  }

  function Respond(net: Network, cfg: Config, store: Store, items: Items, c: Call): (Items, Outcome)
    requires c.query.questions != []
  {
    var domain := c.query.questions[0].name;
    var (checked, answer) := CheckStep(cfg, items, RulesOf(store, c.user), c.user, Normalize(domain),
                                       c.now, c.checkFilled, c.reachable);
    if answer.Panic? then (checked, Panicked)
    else if answer.Block? then (checked, Outcome(Some(BlockResponse(c.query)), Some(Blocked)))
    else Redirect(net, cfg, store, checked, c)
  }

  /** A query that is not blocked. */
  function Redirect(net: Network, cfg: Config, store: Store, items: Items, c: Call): (Items, Outcome)
    requires c.query.questions != []
  {
    var (looked, (ip, ok)) := GetStep(cfg, items, TargetsOf(store, c.user), c.user, c.query.questions[0].name,
                                      c.later, c.redirectFilled, c.budget);
    (looked, if ok then Outcome(Some(RedirectResponse(net, c.query, ip)), Some(Redirected))
             else Outcome(Some(Forward(net, c.query)), Some(Allowed)))
  }

  /** Whatever the cache holds, what the handler answers by itself has the query's ID and only records of the
      asked name and family: sink addresses when it blocks, a valid target when it redirects. */
  lemma ResponsesFit(net: Network, cfg: Config, store: Store, items: Items, c: Call)
    requires Process(net, cfg, store, items, c).1.Outcome?
    ensures var outcome := Process(net, cfg, store, items, c).1;
            outcome.response.Some? && outcome.response.value.Local? ==>
              var r := outcome.response.value;
              && r.id == c.query.id
              && (r.rcode.NxDomain? <==> outcome.status == Some(Blocked))
              && (r.answer != [] ==> c.query.questions != [])
              && forall record :: record in r.answer ==> RecordFits(net, c.query, r.rcode, record)
  {
    if !c.gate.Over? && c.query.questions != [] {
      RespondFits(net, cfg, store, items, c);
    }
  }

  /** A record that may answer the query with that code. */
  predicate RecordFits(net: Network, q: Query, rcode: Rcode, record: Record) {
    && q.questions != [] && record.name == q.questions[0].name
    && (record.AAAA? <==> q.questions[0].qtype == TYPE_AAAA)
    && match rcode
       case NxDomain => record.ip in {"0.0.0.0", "::"}
       case NoError => net.isIPv4(record.ip)
       case _ => false
  }

  lemma RespondFits(net: Network, cfg: Config, store: Store, items: Items, c: Call)
    requires c.query.questions != [] && Respond(net, cfg, store, items, c).1.Outcome?
    ensures var outcome := Respond(net, cfg, store, items, c).1;
            && outcome.response.Some? && outcome.status.Some?
            && var r := outcome.response.value;
            r.Local? ==>
              && r.id == c.query.id && (r.rcode.NxDomain? <==> outcome.status == Some(Blocked))
              && forall record :: record in r.answer ==> RecordFits(net, c.query, r.rcode, record)
  {
    var checked := CheckStep(cfg, items, RulesOf(store, c.user), c.user, Normalize(c.query.questions[0].name),
                             c.now, c.checkFilled, c.reachable).0;
    var found := GetStep(cfg, checked, TargetsOf(store, c.user), c.user, c.query.questions[0].name,
                         c.later, c.redirectFilled, c.budget).1;
    LocalAnswersFit(net, c.query, found.0);
  }

  /** Before the checker is initialised the inline list decides and nothing is redirected. */
  function Unchecked(net: Network, c: Call): Outcome {
    if c.gate.Over? then Outcome(Some(Local(c.query.id, Refused, [])), None)
    else if c.query.questions == [] then Outcome(None, None)
    else Inline(net, c)
  }

  function Inline(net: Network, c: Call): Outcome
    requires c.query.questions != []
  {
    if Fallback(FALLBACK, Normalize(c.query.questions[0].name)) then
      Outcome(Some(BlockResponse(c.query)), Some(Blocked))
    else Outcome(Some(Forward(net, c.query)), Some(Allowed))
  }

  function StatusName(status: Status): string {
    match status
    case Allowed => "ALLOWED"
    case Blocked => "BLOCKED"
    case Redirected => "REDIRECTED"
  }

  /** The log of an answered query. */
  function LogOf(c: Call, e: Surroundings, status: Status): Aggregator.DNSLog
    requires c.query.questions != []
  {
    Aggregator.DNSLog(e.start, c.user, e.clientIP, c.query.questions[0].name, e.typeName, StatusName(status), e.elapsed)
  }

  /** Refused, unasked and crashed queries leave no log. */
  function Logged(logs: Aggregator.State, c: Call, e: Surroundings, outcome: Outcome): Aggregator.State {
    if outcome.Panicked? || outcome.status.None? || c.query.questions == [] then logs
    else Aggregator.Step(logs, Aggregator.Submit(LogOf(c, e, outcome.status.value), e.waiting, e.delivery))
  }

  lemma LogIgnoresGate(logs: Aggregator.State, c: Call, gate: Gate, e: Surroundings, outcome: Outcome)
    ensures Logged(logs, c.(gate := gate), e, outcome) == Logged(logs, c, e, outcome)
  {
  }

  class Handler {
    const engine: Engine
    const net: Network
    const limiter: Limiter.RateLimiter?
    const limit: int
    const windowNs: int
    const logs: Aggregator.LogAggregator?

    constructor (engine: Engine, net: Network, limiter: Limiter.RateLimiter?, limit: int, windowNs: int,
                 logs: Aggregator.LogAggregator?)
      ensures this.engine == engine && this.net == net && this.limiter == limiter
      ensures this.limit == limit && this.windowNs == windowNs && this.logs == logs
    {
      this.engine, this.net, this.limiter := engine, net, limiter;
      this.limit, this.windowNs, this.logs := limit, windowNs, logs;
    }

    /** The gate, after the limiter has recorded the call. */
    ghost function GateNow(user: string, reply: Reply): Gate
      reads limiter
    {
      if limiter == null then Off
      else if !reply.Acked? then Broken
      else if limiter.CallsOf(user) == [] || Limiter.Passes(limiter.CallsOf(user), reply) then Under
      else Over
    }

    /** The call, with the gate the limiter has set. */
    ghost function Gated(call: Call, reply: Reply): Call
      reads limiter
    {
      call.(gate := GateNow(call.user, reply))
    }

    /** The limiter has answered, and its verdict on the call was to refuse it. */
    ghost predicate OverNow(user: string, reply: Reply)
      reads limiter
    {
      && limiter != null && reply.Acked?
      && limiter.CallsOf(user) != [] && !Limiter.Verdict(limiter.CallsOf(user))
    }

    /** What one query of `user` adds to the scripts run for u. */
    function Asked(user: string, e: Surroundings, serial: nat, u: string): (reqs: seq<Limiter.Request>)
      ensures Limiter.AskedFor(reqs, windowNs, limit) && |reqs| <= 1
      ensures reqs != [] <==> u == user && !e.reply.Unreachable?
      ensures reqs != [] ==> reqs[0].now == e.asked && reqs[0].member.serial == serial
    {
      if u != user || e.reply.Unreachable? then []
      else [Limiter.Request(e.asked, Limiter.WinMs(windowNs), Limiter.TtlSec(windowNs), limit,
                            Limiter.Member(e.asked, serial), e.executed, e.reaped)]
    }

    method Ask(user: string, e: Surroundings) returns (gate: Gate)
      requires limiter != null ==> limiter.Valid()
      modifies limiter
      ensures limiter != null ==>
                && limiter.Valid()
                && limiter.serial == old(limiter.serial) + 1
                && forall u :: limiter.CallsOf(u) == old(limiter.CallsOf(u)) + Asked(user, e, limiter.serial, u)
      ensures gate == GateNow(user, e.reply)
      ensures gate.Over? <==> OverNow(user, e.reply)
    {
      if limiter == null {
        return Off;
      }
      var allowed, failed := limiter.AllowQuery(user, limit, windowNs, e.asked, e.executed, e.reply, e.reaped);
      return if failed then Broken else if allowed then Under else Over;
    }

    method SubmitLog(c: Call, e: Surroundings, status: Status)
      requires c.query.questions != []
      modifies logs
      ensures logs != null ==> logs.Now() == Logged(old(logs.Now()), c, e, Outcome(None, Some(status)))
    {
      if logs != null {
        logs.SubmitLog(LogOf(c, e, status), e.waiting, e.delivery);
      }
    }

    /** Asks the limiter, answers, and logs. The call's own gate field is what the limiter says. */
    method ProcessQuery(call: Call, e: Surroundings) returns (outcome: Outcome)
      requires limiter != null ==> limiter.Valid()
      modifies engine`totalChecks, if engine.global == null then {} else {engine.global}, limiter, logs
      ensures limiter != null ==>
                && limiter.Valid()
                && limiter.serial == old(limiter.serial) + 1
                && forall u :: limiter.CallsOf(u) == old(limiter.CallsOf(u)) + Asked(call.user, e, limiter.serial, u)
      ensures engine.global != null ==>
                (engine.global.cache, outcome) ==
                Process(net, old(engine.global.Cfg()), engine.global.rdb.store, old(engine.global.cache), Gated(call, e.reply))
      ensures engine.global == null ==> outcome == Unchecked(net, Gated(call, e.reply))
      ensures outcome.Outcome? && outcome.status.Some? ==> call.query.questions != []
      ensures logs != null ==> logs.Now() == Logged(old(logs.Now()), call, e, outcome)
    {
      var gate := Ask(call.user, e);
      outcome := Proceed(call.(gate := gate), e);
      LogIgnoresGate(if logs == null then Aggregator.Init(0, 0) else old(logs.Now()), call, gate, e, outcome);
    }

    /** What follows the limiter's answer. */
    method Proceed(c: Call, e: Surroundings) returns (outcome: Outcome)
      modifies engine`totalChecks, if engine.global == null then {} else {engine.global}, logs
      ensures engine.global != null ==>
                (engine.global.cache, outcome) ==
                Process(net, old(engine.global.Cfg()), engine.global.rdb.store, old(engine.global.cache), c)
      ensures engine.global == null ==> outcome == Unchecked(net, c)
      ensures outcome.Outcome? && outcome.status.Some? ==> c.query.questions != []
      ensures logs != null ==> logs.Now() == Logged(old(logs.Now()), c, e, outcome)
    {
      if c.gate.Over? {
        return Outcome(Some(Local(c.query.id, Refused, [])), None);
      }
      outcome := RespondAndLog(c, e);
    }

    method RespondAndLog(c: Call, e: Surroundings) returns (outcome: Outcome)
      requires !c.gate.Over?
      modifies engine`totalChecks, if engine.global == null then {} else {engine.global}, logs
      ensures engine.global != null ==>
                (engine.global.cache, outcome) ==
                Process(net, old(engine.global.Cfg()), engine.global.rdb.store, old(engine.global.cache), c)
      ensures engine.global == null ==> outcome == Unchecked(net, c)
      ensures outcome.Outcome? && outcome.status.Some? ==> c.query.questions != []
      ensures logs != null ==> logs.Now() == Logged(old(logs.Now()), c, e, outcome)
    {
      if |c.query.questions| == 0 {
        return Outcome(None, None);
      }
      outcome := RespondNow(c);
      if outcome.Outcome? {
        SubmitLog(c, e, outcome.status.value);
      }
    }

    /** Block, else redirect, else forward. */
    method RespondNow(c: Call) returns (outcome: Outcome)
      requires c.query.questions != []
      modifies engine`totalChecks, if engine.global == null then {} else {engine.global}
      ensures engine.global != null ==>
                (engine.global.cache, outcome) ==
                Respond(net, old(engine.global.Cfg()), engine.global.rdb.store, old(engine.global.cache), c)
      ensures engine.global == null ==> outcome == Inline(net, c)
      ensures outcome.Outcome? ==> outcome.status.Some?
    {
      var result := engine.CheckRule(c.user, c.query.questions[0].name, c.now, c.checkFilled, c.reachable);
      match result {
        case Panic =>
          return Panicked;
        case Block =>
          return Outcome(Some(BlockResponse(c.query)), Some(Blocked));
        case Allow =>
          outcome := RedirectNow(c);
      }
    }

    /** Redirect, else forward. */
    method RedirectNow(c: Call) returns (outcome: Outcome)
      requires c.query.questions != []
      modifies if engine.global == null then {} else {engine.global}
      ensures engine.global != null ==>
                engine.global.enabled == old(engine.global.enabled)
                && (engine.global.cache, outcome) ==
                   Redirect(net, old(engine.global.Cfg()), engine.global.rdb.store, old(engine.global.cache), c)
      ensures engine.global == null ==> outcome == Outcome(Some(Forward(net, c.query)), Some(Allowed))
      ensures outcome.Outcome? && outcome.status.Some?
    {
      var ip, ok := engine.GetRedirectDomain(c.user, c.query.questions[0].name, c.later, c.redirectFilled, c.budget);
      if ok {
        return Outcome(Some(RedirectResponse(net, c.query, ip)), Some(Redirected));
      }
      return Outcome(Some(Forward(net, c.query)), Some(Allowed));
    }
  }

  // ---------- without the cache ----------

  function RedirectTarget(cfg: Config, targets: map<string, string>, domain: string): string {
    if cfg.enabled then Lookup(targets, Normalize(domain)) else ""
  }

  predicate IsBlocked(cfg: Config, rules: set<string>, domain: string) {
    Computed(cfg, rules, Normalize(Normalize(domain)), true)
  }

  /** The answer a resolver without any cache gives: block, else redirect to a valid target, else forward. */
  function Uncached(net: Network, cfg: Config, store: Store, user: string, q: Query): Option<Response> {
    if q.questions == [] then None
    else
      var domain := q.questions[0].name;
      if IsBlocked(cfg, RulesOf(store, user), domain) then Some(BlockResponse(q))
      else Some(RedirectResponse(net, q, RedirectTarget(cfg, TargetsOf(store, user), domain)))
  }

  // ---------- cached and uncached agree ----------

  /** Redis answers in time and the user is under the limit. */
  predicate Undisturbed(users: set<string>, c: Call) {
    !c.gate.Over? && c.reachable && c.budget >= MAX_LABELS && c.user in users
  }

  predicate RightBlock(cfg: Config, store: Store, items: Items, user: string, name: string) {
    var key := BlockKey(user, name);
    key in items ==> items[key].value == Verdict(Computed(cfg, RulesOf(store, user), name, true))
  }

  predicate RightRedirect(cfg: Config, store: Store, items: Items, user: string, name: string) {
    var key := RedirectKey(user, name);
    key in items ==> cfg.enabled && items[key].value == Target(Lookup(TargetsOf(store, user), name))
  }

  /** Whatever one of the users can hit is what the store would say. */
  ghost predicate Right(users: set<string>, cfg: Config, store: Store, items: Items) {
    && (forall user, name :: user in users ==> RightBlock(cfg, store, items, user, name))
    && (forall user, name :: user in users ==> RightRedirect(cfg, store, items, user, name))
  }

  lemma CheckKeepsRight(users: set<string>, cfg: Config, store: Store, items: Items, user: string, domain: string,
                        now: nat, filled: nat)
    requires Apart(users) && Right(users, cfg, store, items) && user in users
    ensures var (after, answer) := CheckStep(cfg, items, RulesOf(store, user), user, domain, now, filled, true);
            && Right(users, cfg, store, after)
            && answer == AnswerOf(Computed(cfg, RulesOf(store, user), Normalize(domain), true))
  {
    var name := Normalize(domain);
    var after := CheckStep(cfg, items, RulesOf(store, user), user, domain, now, filled, true).0;
    assert RightBlock(cfg, store, items, user, name);
    forall u, n | u in users ensures RightBlock(cfg, store, after, u, n) {
      KeysApart(users, Blocking, u, n, Blocking, user, name);
      assert RightBlock(cfg, store, items, u, n);
    }
    forall u, n | u in users ensures RightRedirect(cfg, store, after, u, n) {
      KeysApart(users, Redirecting, u, n, Blocking, user, name);
      assert RightRedirect(cfg, store, items, u, n);
    }
  }

  lemma GetKeepsRight(users: set<string>, cfg: Config, store: Store, items: Items, user: string, domain: string,
                      now: nat, filled: nat, budget: nat)
    requires Apart(users) && Right(users, cfg, store, items) && user in users && budget >= MAX_LABELS
    ensures var (after, found) :=
              GetStep(cfg, items, TargetsOf(store, user), user, domain, now, filled, budget);
            && Right(users, cfg, store, after)
            && found.0 == RedirectTarget(cfg, TargetsOf(store, user), domain)
            && (found.1 <==> found.0 != "" || Live(items, RedirectKey(user, Normalize(domain)), now))
  {
    var name := Normalize(domain);
    var after := GetStep(cfg, items, TargetsOf(store, user), user, domain, now, filled, budget).0;
    assert RightRedirect(cfg, store, items, user, name);
    ReadFindsFirstTarget(TargetsOf(store, user), PatternsOf(name), budget);
    forall u, n | u in users ensures RightBlock(cfg, store, after, u, n) {
      KeysApart(users, Blocking, u, n, Redirecting, user, name);
      assert RightBlock(cfg, store, items, u, n);
    }
    forall u, n | u in users ensures RightRedirect(cfg, store, after, u, n) {
      KeysApart(users, Redirecting, u, n, Redirecting, user, name);
      assert RightRedirect(cfg, store, items, u, n);
    }
  }

  /** The status logged: a forwarded query is logged as redirected when its empty redirect was cached. */
  function LoggedStatus(cfg: Config, store: Store, items: Items, c: Call): Status
    requires c.query.questions != []
  {
    var domain := c.query.questions[0].name;
    if IsBlocked(cfg, RulesOf(store, c.user), domain) then Blocked
    else if RedirectTarget(cfg, TargetsOf(store, c.user), domain) != "" then Redirected
    else if Live(items, RedirectKey(c.user, Normalize(domain)), c.later) then Redirected
    else Allowed
  }

  lemma CallIsUncached(users: set<string>, net: Network, cfg: Config, store: Store, items: Items, c: Call)
    requires Sane(net) && Apart(users) && Right(users, cfg, store, items) && Undisturbed(users, c)
    ensures var (after, outcome) := Process(net, cfg, store, items, c);
            && Right(users, cfg, store, after)
            && outcome == Outcome(Uncached(net, cfg, store, c.user, c.query),
                                  if c.query.questions == [] then None
                                  else Some(LoggedStatus(cfg, store, items, c)))
  {
    if c.query.questions != [] {
      var domain := c.query.questions[0].name;
      CheckKeepsRight(users, cfg, store, items, c.user, Normalize(domain), c.now, c.checkFilled);
      var checked := CheckStep(cfg, items, RulesOf(store, c.user), c.user, Normalize(domain),
                               c.now, c.checkFilled, c.reachable).0;
      GetKeepsRight(users, cfg, store, checked, c.user, domain, c.later, c.redirectFilled, c.budget);
      KeysApart(users, Blocking, c.user, Normalize(Normalize(domain)), Redirecting, c.user, Normalize(domain));
    }
  }

  function CacheAfter(net: Network, cfg: Config, store: Store, calls: seq<Call>): Items {
    if calls == [] then map[]
    else Process(net, cfg, store, CacheAfter(net, cfg, store, calls[..|calls| - 1]), calls[|calls| - 1]).0
  }

  lemma {:induction false} CacheStaysRight(users: set<string>, net: Network, cfg: Config, store: Store, calls: seq<Call>)
    requires Sane(net) && Apart(users) && forall i :: 0 <= i < |calls| ==> Undisturbed(users, calls[i])
    ensures Right(users, cfg, store, CacheAfter(net, cfg, store, calls))
  {
    if calls != [] {
      var init := calls[..|calls| - 1];
      CacheStaysRight(users, net, cfg, store, init);
      CallIsUncached(users, net, cfg, store, CacheAfter(net, cfg, store, init), calls[|calls| - 1]);
    }
  }

  // ---------- what a query is answered ----------

  /** What upstream says, or a failure that carries the query's ID. */
  predicate FromNetwork(net: Network, q: Query, r: Response) {
    && (net.upstream(q).Some? ==> r == FromUpstream(net.upstream(q).value))
    && (net.upstream(q).None? ==> r == Local(q.id, ServFail, []))
  }

  /** The one record of a block. */
  predicate IsSink(q: Query, r: Response)
    requires q.questions != []
  {
    && r.Local? && r.id == q.id && r.rcode == NxDomain
    && r.answer == if q.questions[0].qtype == 28 then [AAAA(q.questions[0].name, "::")]
                   else [A(q.questions[0].name, "0.0.0.0")]
  }

  /** The one record of a redirect, or none for a query that asks for IPv6 addresses. */
  predicate IsRedirect(q: Query, ip: string, r: Response)
    requires q.questions != []
  {
    && r.Local? && r.id == q.id && r.rcode == NoError
    && r.answer == if q.questions[0].qtype == 28 then [] else [A(q.questions[0].name, ip)]
  }

  /** The user has a most specific redirect for the name, and it is an IPv4 address. */
  ghost predicate IsTarget(net: Network, targets: map<string, string>, name: string, ip: string) {
    net.isIPv4(ip) && exists r :: r in targets && targets[r] == ip && MostSpecific(targets, r, name)
  }

  lemma LookupIsTarget(net: Network, targets: map<string, string>, name: string, ip: string)
    requires Sane(net)
    ensures IsTarget(net, targets, name, ip) <==> net.isIPv4(ip) && Lookup(targets, name) == ip
  {
    LookupIsMostSpecific(targets, name);
  }

  /** An undisturbed call on a right cache: a barred name is blocked, else a valid IPv4 target of the most
      specific redirect answers, else upstream. What is not blocked is logged as redirected exactly if some
      redirect has a target, valid or not, or an answer to the redirect lookup is cached. */
  lemma AnsweredByRules(users: set<string>, net: Network, cfg: Config, store: Store, items: Items, c: Call)
    requires Sane(net) && Apart(users) && Right(users, cfg, store, items) && Undisturbed(users, c)
    requires c.query.questions != []
    ensures var q, name := c.query, Normalize(c.query.questions[0].name);
            var targets := TargetsOf(store, c.user);
            var outcome := Process(net, cfg, store, items, c).1;
            && outcome.Outcome? && outcome.response.Some? && outcome.status.Some?
            && if Barred(cfg, RulesOf(store, c.user), Normalize(name), true) then
                 IsSink(q, outcome.response.value) && outcome.status == Some(Blocked)
               else
                 && outcome.status != Some(Blocked)
                 && (outcome.status == Some(Redirected) <==>
                       (cfg.enabled && exists r :: HasTarget(targets, r, name))
                       || Live(items, RedirectKey(c.user, name), c.later))
                 && (forall ip :: cfg.enabled && IsTarget(net, targets, name, ip) ==>
                       IsRedirect(q, ip, outcome.response.value) && outcome.status == Some(Redirected))
                 && ((!cfg.enabled || forall ip :: !IsTarget(net, targets, name, ip)) ==>
                       FromNetwork(net, q, outcome.response.value))
  {
    var name := Normalize(c.query.questions[0].name);
    CallIsUncached(users, net, cfg, store, items, c);
    BarredIsComputed(cfg, RulesOf(store, c.user), Normalize(name), true);
    LookupIsMostSpecific(TargetsOf(store, c.user), name);
    forall ip ensures IsTarget(net, TargetsOf(store, c.user), name, ip) <==>
                      net.isIPv4(ip) && Lookup(TargetsOf(store, c.user), name) == ip
    {
      LookupIsTarget(net, TargetsOf(store, c.user), name, ip);
    }
  }

  /** A query over the limit is refused under its own ID and a query without a question is left unanswered, both
      without a look at the cache and without a log. */
  lemma RefusedOrUnasked(net: Network, cfg: Config, store: Store, items: Items, c: Call)
    ensures c.gate.Over? ==>
              Process(net, cfg, store, items, c) == (items, Outcome(Some(Local(c.query.id, Refused, [])), None))
    ensures c.gate.Over? ==> Unchecked(net, c) == Outcome(Some(Local(c.query.id, Refused, [])), None)
    ensures !c.gate.Over? && c.query.questions == [] ==>
              Process(net, cfg, store, items, c) == (items, Outcome(None, None)) && Unchecked(net, c) == Outcome(None, None)
  {
  }

  /** Without a checker the built-in list decides on the once normalised name, and upstream answers the rest. */
  lemma AnsweredInline(net: Network, c: Call)
    requires !c.gate.Over? && c.query.questions != []
    ensures var outcome := Unchecked(net, c);
            && outcome.Outcome? && outcome.response.Some?
            && if exists i :: 0 <= i < |FALLBACK| && Covers(FALLBACK[i], Normalize(c.query.questions[0].name)) then
                 IsSink(c.query, outcome.response.value) && outcome.status == Some(Blocked)
               else FromNetwork(net, c.query, outcome.response.value) && outcome.status == Some(Allowed)
  {
  }

  /** An answered query submits one log, with its user, the name as asked, and the word for what was done. */
  lemma LogTells(logs: Aggregator.State, c: Call, e: Surroundings, response: Option<Response>, status: Status)
    requires c.query.questions != []
    ensures var submitted := Logged(logs, c, e, Outcome(response, Some(status))).submitted;
            && |submitted| == |logs.submitted| + 1 && submitted[..|logs.submitted|] == logs.submitted
            && var log := submitted[|logs.submitted|];
            && log.user == c.user && log.domain == c.query.questions[0].name
            && log.clientIP == e.clientIP && log.queryType == e.typeName
            && log.timestamp == e.start && log.elapsed == e.elapsed
            && (log.status == "BLOCKED" <==> status == Blocked)
            && (log.status == "REDIRECTED" <==> status == Redirected)
            && (log.status == "ALLOWED" <==> status == Allowed)
    ensures Logged(logs, c, e, Outcome(response, None)) == logs && Logged(logs, c, e, Panicked) == logs
  {
    Aggregator.SubmissionRecorded(logs, LogOf(c, e, status), e.waiting, e.delivery);
  }

  /** Caching is invisible in the answers: with a fixed store and upstream, no Redis errors and no refusals,
      the i-th call of any sequence, by users kept apart at any times, is answered as without a cache. What
      the cache shows in is the log: exactly the unredirected, unblocked queries whose empty redirect is
      still cached are logged as redirected. */
  lemma CachingIsInvisible(users: set<string>, net: Network, cfg: Config, store: Store, calls: seq<Call>, i: nat)
    requires Sane(net) && Apart(users) && i < |calls|
    requires forall k :: 0 <= k < |calls| ==> Undisturbed(users, calls[k])
    ensures var items := CacheAfter(net, cfg, store, calls[..i]);
            var outcome := Process(net, cfg, store, items, calls[i]).1;
            && outcome.Outcome?
            && outcome.response == Uncached(net, cfg, store, calls[i].user, calls[i].query)
            && (calls[i].query.questions != [] ==>
                  outcome.status == Some(LoggedStatus(cfg, store, items, calls[i])))
  {
    CacheStaysRight(users, net, cfg, store, calls[..i]);
    CallIsUncached(users, net, cfg, store, CacheAfter(net, cfg, store, calls[..i]), calls[i]);
  }

  lemma FallbackEntriesHaveNoDot()
    ensures forall i :: 0 <= i < |FALLBACK| ==> FALLBACK[i] != "" && FALLBACK[i][|FALLBACK[i]| - 1] != '.'
  {
  }

  /** A name that still ends in a dot is on no list. */
  lemma DottedIsUnlisted(name: string)
    requires HasSuffix(name, ".")
    ensures !Fallback(FALLBACK, name)
  {
    FallbackEntriesHaveNoDot();
    NoEntryEndsInDot(FALLBACK, name[..|name| - 1]);
    assert name == name[..|name| - 1] + ".";
  }

  /** Without a checker a query is answered differently than by a new checker whose Redis did not answer at
      start-up exactly when its name ends in two dots and the list covers what is left without them. */
  lemma UncheckedIsDisabled(net: Network, store: Store, c: Call)
    requires !c.gate.Over? && c.query.questions != []
    ensures var name := c.query.questions[0].name;
            Unchecked(net, c) != Process(net, Config(false, FALLBACK), store, map[], c).1 <==>
            HasSuffix(name, "..") && Fallback(FALLBACK, Normalize(Normalize(name)))
  {
    var name := c.query.questions[0].name;
    NormalizeTwice(name);
    StillEndsInDot(name);
    if HasSuffix(name, "..") {
      DottedIsUnlisted(Normalize(name));
    }
    NoCheckerNoRedirect(net, store, c);
  }

  /** A new checker without Redis blocks by the list alone and redirects nothing. */
  lemma NoCheckerNoRedirect(net: Network, store: Store, c: Call)
    requires c.query.questions != []
    ensures Respond(net, Config(false, FALLBACK), store, map[], c).1 ==
            if Fallback(FALLBACK, Normalize(Normalize(c.query.questions[0].name)))
            then Outcome(Some(BlockResponse(c.query)), Some(Blocked))
            else Outcome(Some(Forward(net, c.query)), Some(Allowed))
  {
  }

  lemma FirstCallCachesEmpty(users: set<string>, net: Network, cfg: Config, store: Store, c: Call)
    requires Apart(users) && Undisturbed(users, c) && cfg.enabled && c.query.questions != []
    requires c.later <= c.redirectFilled + TTL
    requires !IsBlocked(cfg, RulesOf(store, c.user), c.query.questions[0].name)
    ensures Live(Process(net, cfg, store, map[], c).0,
                 RedirectKey(c.user, Normalize(c.query.questions[0].name)), c.later)
  {
    var domain := c.query.questions[0].name;
    var name := Normalize(domain);
    var (checked, answer) := CheckStep(cfg, map[], RulesOf(store, c.user), c.user, name,
                                       c.now, c.checkFilled, c.reachable);
    assert answer == Allow;
    ReadFindsFirstTarget(TargetsOf(store, c.user), PatternsOf(name), c.budget);
    KeysApart(users, Blocking, c.user, Normalize(name), Redirecting, c.user, name);
    assert RedirectKey(c.user, name) !in checked;
  }

  /** Asking the same unredirected, unblocked name twice within a minute gets the same upstream answer, but
      the first query is logged as allowed and the second as redirected. */
  lemma RepeatLoggedAsRedirected(users: set<string>, net: Network, cfg: Config, store: Store, c: Call)
    requires Sane(net) && Apart(users) && Undisturbed(users, c) && cfg.enabled && c.query.questions != []
    requires c.later <= c.redirectFilled + TTL
    requires !IsBlocked(cfg, RulesOf(store, c.user), c.query.questions[0].name)
    requires RedirectTarget(cfg, TargetsOf(store, c.user), c.query.questions[0].name) == ""
    ensures var (items, first) := Process(net, cfg, store, map[], c);
            var second := Process(net, cfg, store, items, c).1;
            && first == Outcome(Some(Forward(net, c.query)), Some(Allowed))
            && second == Outcome(Some(Forward(net, c.query)), Some(Redirected))
  {
    CallIsUncached(users, net, cfg, store, map[], c);
    var items := Process(net, cfg, store, map[], c).0;
    CallIsUncached(users, net, cfg, store, items, c);
    FirstCallCachesEmpty(users, net, cfg, store, c);
  }
}
