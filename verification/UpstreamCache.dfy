/** The upstream response cache: responses kept for as long as their shortest-lived record. */
module UpstreamCache {
  import opened Text
  import opened Wrappers

  datatype Question = Question(name: string, qtype: nat)
  datatype Query = Query(id: nat, questions: seq<Question>)

  /** A response, with the TTLs of its answer and authority records in seconds. */
  datatype Response = Response(id: nat, success: bool, answer: seq<nat>, ns: seq<nat>)

  /** 2^31 - 1: records that live this long or longer do not bound a response's lifetime. */
  const FOREVER := 0x7FFF_FFFF

  /** The smallest TTL below FOREVER, or 0 if there is none. */
  ghost predicate IsMinTTL(ttls: seq<nat>, min: nat) {
    if exists i :: 0 <= i < |ttls| && ttls[i] < FOREVER
    then min in ttls && forall i :: 0 <= i < |ttls| ==> min <= ttls[i]
    else min == 0
  }

  function MinTTL(ttls: seq<nat>): nat {
    var m := Least(ttls);
    if m == FOREVER then 0 else m
  }

  function Least(ttls: seq<nat>): nat {
    if ttls == [] then FOREVER
    else
      var init, last := Least(ttls[..|ttls| - 1]), ttls[|ttls| - 1];
      if last < init then last else init
  }

  lemma {:induction false} LeastIsLeast(ttls: seq<nat>)
    ensures Least(ttls) <= FOREVER
    ensures forall i :: 0 <= i < |ttls| ==> Least(ttls) <= ttls[i]
    ensures Least(ttls) < FOREVER ==> Least(ttls) in ttls
  {
    if ttls != [] {
      var k := |ttls| - 1;
      LeastIsLeast(ttls[..k]);
      forall i | 0 <= i < |ttls| ensures Least(ttls) <= ttls[i] {
        if i < k { assert ttls[i] == ttls[..k][i]; }
      }
    }
  }

  lemma MinTTLIsMin(ttls: seq<nat>)
    ensures IsMinTTL(ttls, MinTTL(ttls))
  {
    LeastIsLeast(ttls);
  }

  lemma LeastSnoc(ttls: seq<nat>, ttl: nat)
    ensures Least(ttls + [ttl]) == if ttl < Least(ttls) then ttl else Least(ttls)
  {
    assert (ttls + [ttl])[..|ttls|] == ttls;
  }

  /** Two passes over the answer and the authority records. */
  method RespMinTTL(r: Response) returns (seconds: nat)
    ensures seconds == MinTTL(r.answer + r.ns)
  {
    var min, found := FOREVER, false;
    ghost var seen: seq<nat> := [];
    for i := 0 to |r.answer|
      invariant seen == r.answer[..i] && min == Least(seen) && (found <==> min < FOREVER) && min <= FOREVER
    {
      LeastSnoc(seen, r.answer[i]);
      seen := seen + [r.answer[i]];
      if r.answer[i] < min {
        min, found := r.answer[i], true;
      }
    }
    for i := 0 to |r.ns|
      invariant seen == r.answer + r.ns[..i] && min == Least(seen) && (found <==> min < FOREVER) && min <= FOREVER
    {
      LeastSnoc(seen, r.ns[i]);
      seen := seen + [r.ns[i]];
      if r.ns[i] < min {
        min, found := r.ns[i], true;
      }
    }
    assert r.ns[..|r.ns|] == r.ns;
    seconds := if found then min else 0;
  }

  /** filledAt is when the response was stored; the cache itself keeps only the expiry. */
  datatype Entry = Entry(response: Response, filledAt: nat, expiry: nat)

  /** Names compare without case; types by their mnemonic, which is empty for an unknown type. */
  function Key(q: Question, mnemonic: nat -> string): string {
    ToLower(q.name) + ":" + mnemonic(q.qtype)
  }

  predicate Hit(entries: map<string, Entry>, key: string, now: nat) {
    key in entries && now <= entries[key].expiry
  }

  /** One call: what the network would answer is given; None is a failed exchange. */
  datatype Call = Call(query: Query, now: nat, filled: nat, network: Option<Response>) | Clear

  function Resolve(entries: map<string, Entry>, mnemonic: nat -> string, c: Call):
    (map<string, Entry>, Option<Response>)
  {
    if c.Clear? then (map[], None)
    else if c.query.questions == [] then (entries, c.network)
    else
      var key := Key(c.query.questions[0], mnemonic);
      if Hit(entries, key, c.now) then (entries, Some(entries[key].response))
      else
        match c.network
        case None => (entries, None)
        case Some(r) =>
          var ttl := MinTTL(r.answer + r.ns);
          (if r.success && ttl > 0 then entries[key := Entry(r, c.filled, c.filled + ttl * 1000)] else entries, Some(r))
  }

  class ResponseCache {
    var entries: map<string, Entry>
    const mnemonic: nat -> string

    constructor (mnemonic: nat -> string)
      ensures entries == map[] && this.mnemonic == mnemonic
    {
      entries := map[];
      this.mnemonic := mnemonic;
    }

    method ResolveCached(c: Call) returns (r: Option<Response>)
      requires c.Call?
      modifies this`entries
      ensures (entries, r) == Resolve(old(entries), mnemonic, c)
    {
      var ok := |c.query.questions| > 0;
      var key := if ok then Key(c.query.questions[0], mnemonic) else "";
      if ok && Hit(entries, key, c.now) {
        return Some(entries[key].response);
      }
      if c.network.None? {
        return None;
      }
      var resp := c.network.value;
      if ok && resp.success {
        var ttl := RespMinTTL(resp);
        if ttl > 0 {
          entries := entries[key := Entry(resp, c.filled, c.filled + ttl * 1000)];
        }
      }
      return Some(resp);
    }

    method ClearCache()
      modifies this`entries
      ensures entries == Resolve(old(entries), mnemonic, Clear).0
    {
      entries := map[];
    }
  }

  function EntriesAfter(mnemonic: nat -> string, calls: seq<Call>): map<string, Entry> {
    if calls == [] then map[]
    else Resolve(EntriesAfter(mnemonic, calls[..|calls| - 1]), mnemonic, calls[|calls| - 1]).0
  }

  // ---------- what a call answers ----------

  /** A call that misses answers what the network says, and stores it exactly if it is successful and some record
      lives for 1 to 2^31-2 seconds and none for zero, for as long as the shortest. */
  lemma MissAnswersNetwork(entries: map<string, Entry>, mnemonic: nat -> string, c: Call, min: nat)
    requires c.Call? && c.query.questions != [] && !Hit(entries, Key(c.query.questions[0], mnemonic), c.now)
    requires c.network.Some? ==> IsMinTTL(c.network.value.answer + c.network.value.ns, min)
    ensures var (after, answer) := Resolve(entries, mnemonic, c);
            && answer == c.network
            && after == if c.network.Some? && c.network.value.success && min > 0
                        then entries[Key(c.query.questions[0], mnemonic) :=
                                     Entry(c.network.value, c.filled, c.filled + min * 1000)]
                        else entries
  {
    if c.network.Some? {
      MinTTLIsMin(c.network.value.answer + c.network.value.ns);
    }
  }

  /** A call that hits answers with what is stored and asks nobody; the entry then lasts until its last
      millisecond and no longer. */
  lemma HitAnswersStored(entries: map<string, Entry>, mnemonic: nat -> string, c: Call, e: Entry)
    requires c.Call? && c.query.questions != []
    requires Key(c.query.questions[0], mnemonic) in entries && entries[Key(c.query.questions[0], mnemonic)] == e
    ensures c.now <= e.expiry ==> Resolve(entries, mnemonic, c) == (entries, Some(e.response))
    ensures c.now > e.expiry ==> Resolve(entries, mnemonic, c).1 == c.network
  {
  }

  lemma UnaskedAnswersNetwork(entries: map<string, Entry>, mnemonic: nat -> string, c: Call)
    requires c.Call? && c.query.questions == []
    ensures Resolve(entries, mnemonic, c) == (entries, c.network)
  {
  }

  lemma ClearForgets(entries: map<string, Entry>, mnemonic: nat -> string, key: string, now: nat)
    ensures !Hit(Resolve(entries, mnemonic, Clear).0, key, now)
  {
  }

  /** Two questions share an entry exactly if their names agree up to case and their types have one mnemonic. */
  lemma SameKeyIff(one: Question, two: Question, mnemonic: nat -> string)
    requires ':' !in mnemonic(one.qtype) && ':' !in mnemonic(two.qtype)
    ensures Key(one, mnemonic) == Key(two, mnemonic) <==>
            ToLower(one.name) == ToLower(two.name) && mnemonic(one.qtype) == mnemonic(two.qtype)
  {
    if |mnemonic(one.qtype)| <= |mnemonic(two.qtype)| {
      LastColon(ToLower(one.name), mnemonic(one.qtype), ToLower(two.name), mnemonic(two.qtype));
    } else {
      LastColon(ToLower(two.name), mnemonic(two.qtype), ToLower(one.name), mnemonic(one.qtype));
    }
  }

  lemma LastColon(a: string, m: string, b: string, n: string)
    requires ':' !in n && |m| <= |n|
    ensures a + ":" + m == b + ":" + n <==> a == b && m == n
  {
    var s, t := a + ":" + m, b + ":" + n;
    assert s[|a|] == ':' && s[..|a|] == a && s[|a| + 1..] == m && t[..|b|] == b && t[|b| + 1..] == n;
    if |m| < |n| {
      var k := |n| - |m| - 1;
      assert n[k] in n && t[|b| + 1 + k] == n[k] && n[k] != ':';
      assert |s| == |t| ==> |b| + 1 + k == |a|;
    }
  }

  /** Some call of the run fetched the entry's response for its key and stored it. */
  predicate FetchedBy(mnemonic: nat -> string, c: Call, key: string, e: Entry) {
    && c.Call? && c.query.questions != [] && Key(c.query.questions[0], mnemonic) == key
    && c.network == Some(e.response) && e.filledAt == c.filled
  }

  /** In every run, a hit returns a successful response that some earlier call fetched for the same key, and
      it comes no later than the end of any of its records' lifetimes. */
  lemma {:induction false} HitsAreFresh(mnemonic: nat -> string, calls: seq<Call>, key: string, now: nat)
    requires Hit(EntriesAfter(mnemonic, calls), key, now)
    ensures var e := EntriesAfter(mnemonic, calls)[key];
            && e.response.success
            && (exists i :: 0 <= i < |calls| && FetchedBy(mnemonic, calls[i], key, e))
            && (forall ttl :: ttl in e.response.answer + e.response.ns ==> now <= e.filledAt + ttl * 1000)
  {
    if calls != [] {
      var init, c := calls[..|calls| - 1], calls[|calls| - 1];
      var before := EntriesAfter(mnemonic, init);
      var e := EntriesAfter(mnemonic, calls)[key];
      if key in before && before[key] == e {
        HitsAreFresh(mnemonic, init, key, now);
        var i :| 0 <= i < |init| && FetchedBy(mnemonic, init[i], key, e);
        assert calls[i] == init[i];
      } else {
        assert FetchedBy(mnemonic, calls[|calls| - 1], key, e);
        MinTTLIsMin(e.response.answer + e.response.ns);
      }
    }
  }

  // ---------- message IDs ----------

  /** The DNS client refuses a response whose ID is not the query's. */
  predicate Echoes(c: Call) {
    c.Call? && c.network.Some? ==> c.network.value.id == c.query.id
  }

  /** The answer carries an ID that is not its query's. */
  predicate Foreign(c: Call, answer: Option<Response>) {
    c.Call? && answer.Some? && answer.value.id != c.query.id
  }

  /** A hit is returned as stored, ID included. So a call on any cache is answered with a foreign ID if and only
      if it hits a response with another ID than its own. */
  lemma ForeignIff(entries: map<string, Entry>, mnemonic: nat -> string, c: Call)
    requires Echoes(c)
    ensures Foreign(c, Resolve(entries, mnemonic, c).1) <==>
            && c.Call? && c.query.questions != []
            && var key := Key(c.query.questions[0], mnemonic);
            Hit(entries, key, c.now) && entries[key].response.id != c.query.id
  {
  }

  /** In every run, a call is answered with a foreign ID if and only if it hits an entry that a call with
      another ID fetched for the same key. */
  lemma RunForeignIff(mnemonic: nat -> string, calls: seq<Call>, c: Call)
    requires Echoes(c) && forall i :: 0 <= i < |calls| ==> Echoes(calls[i])
    ensures var entries := EntriesAfter(mnemonic, calls);
            Foreign(c, Resolve(entries, mnemonic, c).1) <==>
            && c.Call? && c.query.questions != []
            && var key := Key(c.query.questions[0], mnemonic);
            && Hit(entries, key, c.now)
            && exists i :: 0 <= i < |calls| && FetchedBy(mnemonic, calls[i], key, entries[key])
                           && calls[i].query.id != c.query.id
  {
    var entries := EntriesAfter(mnemonic, calls);
    ForeignIff(entries, mnemonic, c);
    if c.Call? && c.query.questions != [] {
      var key := Key(c.query.questions[0], mnemonic);
      if Hit(entries, key, c.now) {
        HitsAreFresh(mnemonic, calls, key, c.now);
      }
    }
  }

  lemma FirstFill(mnemonic: nat -> string, c: Call, ttl: nat)
    requires c.Call? && c.query.questions != [] && 0 < ttl < FOREVER
    requires c.network == Some(Response(c.query.id, true, [ttl], []))
    ensures Resolve(map[], mnemonic, c).0 ==
            map[Key(c.query.questions[0], mnemonic) := Entry(c.network.value, c.filled, c.filled + ttl * 1000)]
  {
    assert [ttl] + [] == [ttl];
    assert Least([ttl]) == ttl by { assert [ttl][..0] == []; }
  }

  /** The plainest case: the second of two queries for one name gets a response that carries the first's ID. */
  lemma HitKeepsFirstId(mnemonic: nat -> string, name: string, qtype: nat, id: nat, other: nat, ttl: nat, now: nat)
    requires 0 < ttl < FOREVER && id != other
    ensures var q := [Question(name, qtype)];
            var first := Call(Query(id, q), now, now, Some(Response(id, true, [ttl], [])));
            var second := Call(Query(other, q), now, now, None);
            Foreign(second, Resolve(Resolve(map[], mnemonic, first).0, mnemonic, second).1)
  {
    FirstFill(mnemonic, Call(Query(id, [Question(name, qtype)]), now, now, Some(Response(id, true, [ttl], []))), ttl);
  }
}
