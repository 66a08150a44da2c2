/** The rate limiter: a script over one sorted set per user, with an expiry on the key. */
module Limiter {
  import opened RateLimit
  import opened Settings
  import opened Wrappers

  /** A member is unique: the call's time and the process-wide call number. */
  datatype Member = Member(ms: nat, serial: nat)
  type Entries = map<Member, nat>

  /** A key's value. An empty set is no key at all, so it has no deadline either. */
  datatype SortedSet = SortedSet(entries: Entries, deadline: Option<int>)
  const ABSENT := SortedSet(map[], None)

  // ---------- sorted-set commands ----------

  /** From its deadline on, a key may be gone at any time; `reaped` says whether it is. */
  function Fetch(z: SortedSet, now: int, reaped: bool): SortedSet {
    if reaped && z.deadline.Some? && z.deadline.value <= now then ABSENT else z
  }

  function RemoveRange(z: SortedSet, lo: int, hi: int): SortedSet {
    var kept := map m | m in z.entries && !(lo <= z.entries[m] <= hi) :: z.entries[m];
    if kept == map[] then ABSENT else z.(entries := kept)
  }

  function Expire(z: SortedSet, now: int, ttlSec: int): SortedSet {
    if z.entries == map[] || ttlSec <= 0 then ABSENT else z.(deadline := Some(now + ttlSec * 1000))
  }

  // ---------- the call ----------

  function WinMs(windowNs: int): int {
    if windowNs >= 0 then windowNs / 1_000_000 else -((-windowNs) / 1_000_000)
  }

  /** The window in whole seconds, rounded up. */
  function TtlSec(windowNs: int): int {
    -((-windowNs) / 1_000_000_000)
  }

  /** How many whole milliseconds a duration holds, the rest cut off towards zero. */
  predicate WholeMs(windowNs: int, win: int) {
    if windowNs >= 0 then win * 1_000_000 <= windowNs < (win + 1) * 1_000_000
    else (win - 1) * 1_000_000 < windowNs <= win * 1_000_000
  }

  /** The window in milliseconds is that number, and no other number is. */
  lemma WinMsIsWhole(windowNs: int, win: int)
    ensures WholeMs(windowNs, win) <==> win == WinMs(windowNs)
    ensures win * 1_000_000 <= windowNs ==> win <= WinMs(windowNs)
    ensures windowNs >= 0 && win <= WinMs(windowNs) ==> win * 1_000_000 <= windowNs
  {
  }

  /** The expiry is the least number of seconds that covers the window. */
  lemma TtlSecIsCeiling(windowNs: int)
    ensures (TtlSec(windowNs) - 1) * 1_000_000_000 < windowNs <= TtlSec(windowNs) * 1_000_000_000
  {
  }

  /** The key outlives every entry's usefulness: rounding the expiry up makes it cover the window. */
  lemma TtlCoversWindow(windowNs: int)
    ensures WinMs(windowNs) <= TtlSec(windowNs) * 1000
    ensures windowNs > 0 ==> TtlSec(windowNs) >= 1
  {
  }

  /** One execution of the script: `now` is the caller's clock before the call, `executed` the Redis server's
      clock when the script runs; only EXPIRE and the reclaiming of keys go by the latter. */
  datatype Request = Request(now: nat, winMs: int, ttlSec: int, limit: int, member: Member, executed: int, reaped: bool)

  /** The script. `expires` tells the real script from the same script without its EXPIRE. */
  function Script(z: SortedSet, r: Request, expires: bool): (SortedSet, bool) {
    var pruned := RemoveRange(Fetch(z, r.executed, r.reaped), 0, r.now - r.winMs);
    if |pruned.entries| < r.limit then
      var added := pruned.(entries := pruned.entries[r.member := r.now]);
      (if expires then Expire(added, r.executed, r.ttlSec) else added, true)
    else (pruned, false)
  }

  /** What the count sees. */
  function Pruned(z: SortedSet, r: Request): Entries {
    RemoveRange(Fetch(z, r.executed, r.reaped), 0, r.now - r.winMs).entries
  }

  function Replay(reqs: seq<Request>, expires: bool): (end: (SortedSet, seq<bool>))
    ensures |end.1| == |reqs|
  {
    if reqs == [] then (ABSENT, [])
    else
      var (z, sel) := Replay(reqs[..|reqs| - 1], expires);
      var (z', ok) := Script(z, reqs[|reqs| - 1], expires);
      (z', sel + [ok])
  }

  // ---------- the script keeps exactly the admissions that still count ----------

  function Times(reqs: seq<Request>): (ts: seq<nat>)
    ensures |ts| == |reqs| && forall i :: 0 <= i < |reqs| ==> ts[i] == reqs[i].now
  {
    seq(|reqs|, i requires 0 <= i < |reqs| => reqs[i].now)
  }

  predicate DistinctMembers(reqs: seq<Request>) {
    forall i, j :: 0 <= i < j < |reqs| ==> reqs[i].member != reqs[j].member
  }

  /** Scripts run at the time they were called, and time does not go back. */
  predicate InTime(reqs: seq<Request>) {
    Ordered(Times(reqs)) && forall i :: 0 <= i < |reqs| ==> reqs[i].executed == reqs[i].now
  }

  /** One limit and window, and an expiry that covers the window. */
  predicate Alike(reqs: seq<Request>, win: int, limit: int) {
    forall i :: 0 <= i < |reqs| ==> reqs[i].winMs == win <= reqs[i].ttlSec * 1000 && reqs[i].limit == limit
  }

  predicate Steady(reqs: seq<Request>, win: int, limit: int) {
    InTime(reqs) && Alike(reqs, win, limit)
  }

  predicate Regular(reqs: seq<Request>, win: int, limit: int) {
    Steady(reqs, win, limit) && DistinctMembers(reqs)
  }

  /** The admissions later than `cutoff`, as a sorted set's entries. */
  function Survivors(reqs: seq<Request>, sel: seq<bool>, cutoff: int): Entries
    requires |reqs| == |sel|
  {
    if reqs == [] then map[]
    else
      var k := |reqs| - 1;
      var rest := Survivors(reqs[..k], sel[..k], cutoff);
      if sel[k] && cutoff < reqs[k].now then rest[reqs[k].member := reqs[k].now] else rest
  }

  function Above(entries: Entries, cutoff: int): Entries {
    map m | m in entries && cutoff < entries[m] :: entries[m]
  }

  /** Each survivor is one of the calls, later than the cutoff. */
  lemma {:induction false} SurvivorIndex(reqs: seq<Request>, sel: seq<bool>, cutoff: int, m: Member) returns (i: nat)
    requires |reqs| == |sel| && m in Survivors(reqs, sel, cutoff)
    ensures i < |reqs| && reqs[i].member == m
    ensures Survivors(reqs, sel, cutoff)[m] == reqs[i].now && cutoff < reqs[i].now
  {
    var k := |reqs| - 1;
    if sel[k] && cutoff < reqs[k].now && m == reqs[k].member {
      i := k;
    } else {
      i := SurvivorIndex(reqs[..k], sel[..k], cutoff, m);
      assert reqs[..k][i] == reqs[i];
    }
  }

  lemma SurvivorsFrom(reqs: seq<Request>, sel: seq<bool>, cutoff: int)
    requires |reqs| == |sel|
    ensures forall m :: m in Survivors(reqs, sel, cutoff) ==>
              (exists i :: 0 <= i < |reqs| && reqs[i].member == m && Survivors(reqs, sel, cutoff)[m] == reqs[i].now)
              && cutoff < Survivors(reqs, sel, cutoff)[m]
  {
    forall m | m in Survivors(reqs, sel, cutoff)
      ensures exists i :: 0 <= i < |reqs| && reqs[i].member == m && Survivors(reqs, sel, cutoff)[m] == reqs[i].now
      ensures cutoff < Survivors(reqs, sel, cutoff)[m]
    {
      var i := SurvivorIndex(reqs, sel, cutoff, m);
    }
  }

  lemma TimesPrefix(reqs: seq<Request>, sel: seq<bool>, k: nat, lo: int, hi: int)
    requires k < |reqs| == |sel|
    ensures InWindow(Times(reqs), sel, k, lo, hi) == InWindow(Times(reqs[..k]), sel[..k], k, lo, hi)
  {
    assert Times(reqs)[..k] == Times(reqs[..k])[..k];
    assert sel[..k] == sel[..k][..k];
    SamePrefix(Times(reqs), Times(reqs[..k]), sel, sel[..k], k, lo, hi);
  }

  /** As members are distinct, the set's size is the number of admissions in the window. */
  lemma {:induction false} SurvivorsCount(reqs: seq<Request>, sel: seq<bool>, cutoff: int, hi: int)
    requires |reqs| == |sel| && DistinctMembers(reqs)
    requires forall i :: 0 <= i < |reqs| ==> reqs[i].now <= hi
    ensures |Survivors(reqs, sel, cutoff)| == InWindow(Times(reqs), sel, |reqs|, cutoff, hi)
  {
    if reqs != [] {
      var k := |reqs| - 1;
      SurvivorsCount(reqs[..k], sel[..k], cutoff, hi);
      TimesPrefix(reqs, sel, k, cutoff, hi);
      NewMember(reqs, sel, cutoff);
    }
  }

  lemma NewMember(reqs: seq<Request>, sel: seq<bool>, cutoff: int)
    requires |reqs| == |sel| && reqs != [] && DistinctMembers(reqs)
    ensures var k := |reqs| - 1; reqs[k].member !in Survivors(reqs[..k], sel[..k], cutoff)
  {
    SurvivorsFrom(reqs[..|reqs| - 1], sel[..|reqs| - 1], cutoff);
  }

  lemma {:induction false} AboveSurvivors(reqs: seq<Request>, sel: seq<bool>, low: int, cutoff: int)
    requires |reqs| == |sel| && low <= cutoff && DistinctMembers(reqs)
    ensures Above(Survivors(reqs, sel, low), cutoff) == Survivors(reqs, sel, cutoff)
  {
    if reqs != [] {
      var k := |reqs| - 1;
      AboveSurvivors(reqs[..k], sel[..k], low, cutoff);
      NewMember(reqs, sel, low);
    }
  }

  /** After the requests, what the set holds within the window is exactly the admissions in it, and no
      score is in the future. */
  predicate Holds(entries: Entries, reqs: seq<Request>, sel: seq<bool>, win: int) {
    && |sel| == |reqs|
    && if reqs == [] then entries == map[]
       else
         var last := reqs[|reqs| - 1].now;
         && (forall m :: m in entries ==> entries[m] <= last)
         && Above(entries, last - win) == Survivors(reqs, sel, last - win)
  }

  /** When the key dies, none of its entries is still in the window. */
  predicate Covered(z: SortedSet, win: int, expires: bool) {
    && (!expires ==> z.deadline.None?)
    && (z.deadline.Some? ==> forall m :: m in z.entries ==> z.entries[m] + win <= z.deadline.value)
  }

  lemma AboveTwice(entries: Entries, low: int, cutoff: int)
    requires low <= cutoff
    ensures Above(Above(entries, low), cutoff) == Above(entries, cutoff)
  {
  }

  lemma PrunedIsAbove(z: SortedSet, r: Request, expires: bool)
    requires Covered(z, r.winMs, expires) && r.executed == r.now
    ensures Pruned(z, r) == Above(z.entries, r.now - r.winMs)
  {
  }

  /** Fetching and pruning at a later time leaves exactly the admissions still in the window, whether or
      not the key has died in between. */
  lemma PrunedIsSurvivors(z: SortedSet, reqs: seq<Request>, sel: seq<bool>, r: Request, expires: bool)
    requires Holds(z.entries, reqs, sel, r.winMs) && Covered(z, r.winMs, expires) && DistinctMembers(reqs)
    requires r.executed == r.now && (reqs != [] ==> reqs[|reqs| - 1].now <= r.now)
    ensures Pruned(z, r) == Survivors(reqs, sel, r.now - r.winMs)
  {
    PrunedIsAbove(z, r, expires);
    if reqs != [] {
      var last := reqs[|reqs| - 1].now;
      AboveTwice(z.entries, last - r.winMs, r.now - r.winMs);
      AboveSurvivors(reqs, sel, last - r.winMs, r.now - r.winMs);
    }
  }

  lemma ScriptStaysCovered(z: SortedSet, r: Request, win: int, expires: bool)
    requires Covered(z, win, expires) && r.winMs == win <= r.ttlSec * 1000 && r.executed == r.now
    requires forall m :: m in z.entries ==> z.entries[m] <= r.now
    ensures Covered(Script(z, r, expires).0, win, expires)
    ensures forall m :: m in Script(z, r, expires).0.entries ==> Script(z, r, expires).0.entries[m] <= r.now
  {
  }

  lemma NoneLeft(reqs: seq<Request>, sel: seq<bool>, cutoff: int)
    requires |sel| == |reqs| && forall i :: 0 <= i < |reqs| ==> reqs[i].now <= cutoff
    ensures Survivors(reqs, sel, cutoff) == map[]
  {
    SurvivorsFrom(reqs, sel, cutoff);
  }

  /** What counts for the next call: a new admission joins the survivors if its window is not over. */
  function Joined(rest: Entries, r: Request, ok: bool, cutoff: int): Entries {
    if ok && cutoff < r.now then rest[r.member := r.now] else rest
  }

  lemma SurvivorsSnoc(reqs: seq<Request>, sel: seq<bool>, r: Request, ok: bool, cutoff: int)
    requires |sel| == |reqs|
    ensures Survivors(reqs + [r], sel + [ok], cutoff) ==
            Joined(Survivors(reqs, sel, cutoff), r, ok, cutoff)
  {
    assert (reqs + [r])[..|reqs|] == reqs && (sel + [ok])[..|reqs|] == sel;
  }

  lemma ScriptEntries(z: SortedSet, r: Request, expires: bool)
    ensures var (after, ok) := Script(z, r, expires);
            && ok == (|Pruned(z, r)| < r.limit)
            && after.entries == if !ok then Pruned(z, r)
                                else if expires && r.ttlSec <= 0 then map[]
                                else Pruned(z, r)[r.member := r.now]
  {
  }

  lemma AboveAdded(entries: Entries, m: Member, score: nat, cutoff: int)
    requires forall k :: k in entries ==> cutoff < entries[k]
    ensures Above(entries, cutoff) == entries
    ensures cutoff < score ==> Above(entries[m := score], cutoff) == entries[m := score]
    ensures cutoff >= score && entries == map[] ==> Above(entries[m := score], cutoff) == map[]
  {
  }

  lemma ScriptHolds(z: SortedSet, reqs: seq<Request>, sel: seq<bool>, r: Request, expires: bool)
    requires |sel| == |reqs| && r.winMs <= r.ttlSec * 1000
    requires forall i :: 0 <= i < |reqs| ==> reqs[i].now <= r.now
    requires Pruned(z, r) == Survivors(reqs, sel, r.now - r.winMs)
    ensures var (after, ok) := Script(z, r, expires);
            Above(after.entries, r.now - r.winMs) == Joined(Survivors(reqs, sel, r.now - r.winMs), r, ok, r.now - r.winMs)
  {
    var cutoff := r.now - r.winMs;
    SurvivorsFrom(reqs, sel, cutoff);
    if r.winMs <= 0 {
      NoneLeft(reqs, sel, cutoff);
    }
    ScriptJoins(z, r, expires, cutoff);
  }

  lemma ScriptJoins(z: SortedSet, r: Request, expires: bool, cutoff: int)
    requires r.winMs <= r.ttlSec * 1000 && cutoff == r.now - r.winMs
    requires forall m :: m in Pruned(z, r) ==> cutoff < Pruned(z, r)[m]
    requires r.winMs <= 0 ==> Pruned(z, r) == map[]
    ensures var (after, ok) := Script(z, r, expires); Above(after.entries, cutoff) == Joined(Pruned(z, r), r, ok, cutoff)
  {
    ScriptEntries(z, r, expires);
    AboveAdded(Pruned(z, r), r.member, r.now, cutoff);
    AboveAdded(map[], r.member, r.now, cutoff);
  }

  lemma ReplaySnoc(reqs: seq<Request>, r: Request, expires: bool)
    ensures Replay(reqs + [r], expires) ==
            var (z, sel) := Replay(reqs, expires);
            var (z', ok) := Script(z, r, expires);
            (z', sel + [ok])
  {
    assert (reqs + [r])[..|reqs|] == reqs;
  }

  lemma RegularPrefix(reqs: seq<Request>, r: Request, win: int, limit: int)
    requires Regular(reqs + [r], win, limit)
    ensures Regular(reqs, win, limit) && DistinctMembers(reqs)
    ensures r.winMs == win <= r.ttlSec * 1000 && r.limit == limit && r.executed == r.now
    ensures forall i :: 0 <= i < |reqs| ==> reqs[i].now <= r.now
  {
    var all := reqs + [r];
    assert all[|reqs|] == r;
    assert forall i :: 0 <= i < |reqs| ==> all[i] == reqs[i] && Times(all)[i] == Times(reqs)[i];
    assert forall i :: 0 <= i < |reqs| ==> Times(all)[i] <= Times(all)[|reqs|];
  }

  lemma HoldsSnoc(entries: Entries, reqs: seq<Request>, sel: seq<bool>, r: Request, ok: bool, win: int)
    requires |sel| == |reqs| && forall m :: m in entries ==> entries[m] <= r.now
    requires Above(entries, r.now - win) == Joined(Survivors(reqs, sel, r.now - win), r, ok, r.now - win)
    ensures Holds(entries, reqs + [r], sel + [ok], win)
  {
    SurvivorsSnoc(reqs, sel, r, ok, r.now - win);
    assert (reqs + [r])[|reqs|] == r;
  }

  lemma ScoresArePast(entries: Entries, reqs: seq<Request>, sel: seq<bool>, win: int, now: nat)
    requires Holds(entries, reqs, sel, win)
    requires forall i :: 0 <= i < |reqs| ==> reqs[i].now <= now
    ensures forall m :: m in entries ==> entries[m] <= now
  {
  }

  lemma ScriptVerdict(z: SortedSet, reqs: seq<Request>, sel: seq<bool>, r: Request, win: int, limit: int, expires: bool)
    requires Regular(reqs + [r], win, limit)
    requires Holds(z.entries, reqs, sel, win) && Covered(z, win, expires)
    ensures Pruned(z, r) == Survivors(reqs, sel, r.now - win)
    ensures Script(z, r, expires).1 <==> InWindow(Times(reqs), sel, |reqs|, r.now - win, r.now) < limit
  {
    RegularPrefix(reqs, r, win, limit);
    PrunedIsSurvivors(z, reqs, sel, r, expires);
    SurvivorsCount(reqs, sel, r.now - win, r.now);
    ScriptEntries(z, r, expires);
  }

  lemma ScriptState(z: SortedSet, reqs: seq<Request>, sel: seq<bool>, r: Request, win: int, limit: int, expires: bool)
    requires Regular(reqs + [r], win, limit) && Holds(z.entries, reqs, sel, win) && Covered(z, win, expires)
    requires Pruned(z, r) == Survivors(reqs, sel, r.now - win)
    ensures var (after, ok) := Script(z, r, expires);
            Holds(after.entries, reqs + [r], sel + [ok], win) && Covered(after, win, expires)
  {
    RegularPrefix(reqs, r, win, limit);
    ScoresArePast(z.entries, reqs, sel, win, r.now);
    ScriptStaysCovered(z, r, win, expires);
    ScriptHolds(z, reqs, sel, r, expires);
    HoldsSnoc(Script(z, r, expires).0.entries, reqs, sel, r, Script(z, r, expires).1, win);
  }

  lemma GreedySnoc(reqs: seq<Request>, r: Request, win: int, limit: int)
    ensures Greedy(Times(reqs + [r]), win, limit) ==
            var sel := Greedy(Times(reqs), win, limit);
            sel + [InWindow(Times(reqs), sel, |reqs|, r.now - win, r.now) < limit]
  {
    assert Times(reqs + [r])[..|reqs|] == Times(reqs);
  }

  /** The script computes the greedy policy: on every run of one user's calls under one limit and window,
      with or without EXPIRE, and whenever Redis reclaims the expired key. */
  lemma {:induction false} ReplayIsGreedy(reqs: seq<Request>, win: int, limit: int, expires: bool)
    requires Regular(reqs, win, limit)
    ensures var (z, sel) := Replay(reqs, expires);
            sel == Greedy(Times(reqs), win, limit) && Holds(z.entries, reqs, sel, win) && Covered(z, win, expires)
  {
    if reqs != [] {
      var init, r := reqs[..|reqs| - 1], reqs[|reqs| - 1];
      assert reqs == init + [r];
      RegularPrefix(init, r, win, limit);
      ReplayIsGreedy(init, win, limit, expires);
      ReplaySnoc(init, r, expires);
      var (z, sel) := Replay(init, expires);
      ScriptVerdict(z, init, sel, r, win, limit, expires);
      ScriptState(z, init, sel, r, win, limit, expires);
      GreedySnoc(init, r, win, limit);
    }
  }

  /** EXPIRE is unobservable: whenever the keys die, every call gets the verdict it would get if they never
      did. */
  lemma ExpiryUnobservable(reqs: seq<Request>, win: int, limit: int)
    requires Regular(reqs, win, limit)
    ensures Replay(reqs, true).1 == Replay(reqs, false).1
  {
    ReplayIsGreedy(reqs, win, limit, true);
    ReplayIsGreedy(reqs, win, limit, false);
  }

  // ---------- what AllowQuery asks for ----------

  /** The scripts that calls of AllowQuery with one limit and window run. */
  predicate AskedFor(reqs: seq<Request>, windowNs: int, limit: int) {
    forall i :: 0 <= i < |reqs| ==>
      reqs[i].winMs == WinMs(windowNs) && reqs[i].ttlSec == TtlSec(windowNs) && reqs[i].limit == limit
  }

  lemma AskedIsAlike(reqs: seq<Request>, windowNs: int, limit: int)
    requires AskedFor(reqs, windowNs, limit)
    ensures Alike(reqs, WinMs(windowNs), limit)
  {
    TtlCoversWindow(windowNs);
  }

  /** No window of so many milliseconds as fit into the duration holds more than `limit` selected calls. */
  ghost predicate KeepsBound(ts: seq<nat>, sel: seq<bool>, windowNs: int, limit: int) {
    forall win: int | win * 1_000_000 <= windowNs :: Respects(ts, sel, win, limit)
  }

  lemma BoundIsRespect(ts: seq<nat>, sel: seq<bool>, windowNs: int, limit: int)
    requires |sel| == |ts|
    ensures KeepsBound(ts, sel, windowNs, limit) <==> Respects(ts, sel, WinMs(windowNs), limit)
  {
    if Respects(ts, sel, WinMs(windowNs), limit) {
      forall win: int | win * 1_000_000 <= windowNs ensures Respects(ts, sel, win, limit) {
        WinMsIsWhole(windowNs, win);
        ShorterWindows(ts, sel, WinMs(windowNs), win, limit);
      }
    } else if windowNs >= 0 {
      WinMsIsWhole(windowNs, WinMs(windowNs));
    } else {
      EmptyWindowsKept(ts, sel, WinMs(windowNs), limit);
    }
  }

  /** What the limiter promises its callers: on one user's calls, numbered as the limiter numbers them, no
      window that fits into the duration ever holds more than `limit` admissions, a refusal means exactly `limit`
      admissions in the whole milliseconds of the last one, and no limiter that keeps the bound has admitted
      more at any point. */
  lemma LimiterPromise(reqs: seq<Request>, rival: seq<bool>, serial: nat, windowNs: int, win: int, limit: int, n: nat)
    requires AskedFor(reqs, windowNs, limit) && Numbered(reqs, serial) && InTime(reqs) && n <= |reqs|
    requires windowNs >= 1_000_000 || limit > 0
    requires WholeMs(windowNs, win) && |rival| == |reqs| && KeepsBound(Times(reqs), rival, windowNs, limit)
    ensures var ts, sel := Times(reqs), Replay(reqs, true).1;
            && KeepsBound(ts, sel, windowNs, limit)
            && RefusesOnlyWhenFull(ts, sel, win, limit)
            && Count(rival, n) <= Count(sel, n)
  {
    WinMsIsWhole(windowNs, win);
    AskedIsAlike(reqs, windowNs, limit);
    NumberedBelow(reqs, serial);
    ReplayIsGreedy(reqs, win, limit, true);
    assert Replay(reqs, true).1 == Greedy(Times(reqs), win, limit);
    BoundIsRespect(Times(reqs), rival, windowNs, limit);
    BoundIsRespect(Times(reqs), Replay(reqs, true).1, windowNs, limit);
    GreedyRespects(Times(reqs), win, limit);
    GreedyIsOptimal(Times(reqs), rival, win, limit, n);
  }

  // ---------- implementation ----------

  /** Member numbers grow along the calls and do not exceed the counter. */
  predicate Numbered(reqs: seq<Request>, serial: int) {
    reqs == [] ||
    (reqs[|reqs| - 1].member.serial <= serial
     && Numbered(reqs[..|reqs| - 1], reqs[|reqs| - 1].member.serial - 1))
  }

  lemma {:induction false} NumberedBelow(reqs: seq<Request>, serial: int)
    requires Numbered(reqs, serial)
    ensures forall i :: 0 <= i < |reqs| ==> reqs[i].member.serial <= serial
    ensures DistinctMembers(reqs)
  {
    if reqs != [] {
      var k := |reqs| - 1;
      NumberedBelow(reqs[..k], reqs[k].member.serial - 1);
      forall i, j | 0 <= i < j < |reqs| ensures reqs[i].member != reqs[j].member {
        assert reqs[i] == reqs[..k][i] && (j < k ==> reqs[j] == reqs[..k][j]);
      }
    }
  }

  /** A key holds what its user's calls made of it, and call numbers grow. */
  predicate Consistent(z: SortedSet, reqs: seq<Request>, serial: nat) {
    z == Replay(reqs, true).0 && Numbered(reqs, serial)
  }

  /** The verdict on the last of the calls. */
  predicate Verdict(reqs: seq<Request>)
    requires reqs != []
  {
    Replay(reqs, true).1[|reqs| - 1]
  }

  lemma ConsistentSnoc(z: SortedSet, reqs: seq<Request>, r: Request, serial: nat)
    requires Consistent(z, reqs, serial) && r.member.serial == serial + 1
    ensures Consistent(Script(z, r, true).0, reqs + [r], serial + 1)
    ensures Verdict(reqs + [r]) == Script(z, r, true).1
  {
    ReplaySnoc(reqs, r, true);
    assert (reqs + [r])[..|reqs|] == reqs;
  }

  lemma ConsistentLater(z: SortedSet, reqs: seq<Request>, serial: nat)
    requires Consistent(z, reqs, serial)
    ensures Consistent(z, reqs, serial + 1)
  {
  }

  /** On one user's calls under one limit and window the verdict is the greedy policy's. */
  lemma SteadyVerdictIsGreedy(reqs: seq<Request>, serial: nat, windowNs: int, win: int, limit: int)
    requires reqs != [] && AskedFor(reqs, windowNs, limit) && Numbered(reqs, serial) && InTime(reqs)
    requires WholeMs(windowNs, win)
    ensures Verdict(reqs) == Greedy(Times(reqs), win, limit)[|reqs| - 1]
  {
    WinMsIsWhole(windowNs, win);
    AskedIsAlike(reqs, windowNs, limit);
    NumberedBelow(reqs, serial);
    ReplayIsGreedy(reqs, win, limit, true);
  }

  // ---------- failing open ----------

  /** A query goes on if the limiter fails or admits it. */
  predicate Passes(calls: seq<Request>, reply: Reply)
    requires reply.Acked? ==> calls != []
  {
    !reply.Acked? || Verdict(calls)
  }

  /** A query's request to the limiter, and what became of it. */
  datatype Attempt = Attempt(request: Request, reply: Reply)

  /** The calls whose script was executed. */
  function Executed(attempts: seq<Attempt>): seq<Request> {
    if attempts == [] then []
    else
      var last := attempts[|attempts| - 1];
      Executed(attempts[..|attempts| - 1]) + if last.reply.Unreachable? then [] else [last.request]
  }

  predicate Asked(a: Attempt, lo: int, hi: int) {
    lo < a.request.now <= hi
  }

  /** How many queries asked in (lo, hi] went on. */
  function PassedIn(attempts: seq<Attempt>, lo: int, hi: int): nat {
    if attempts == [] then 0
    else
      var init, last := attempts[..|attempts| - 1], attempts[|attempts| - 1];
      PassedIn(init, lo, hi) + if Asked(last, lo, hi) && Passes(Executed(attempts), last.reply) then 1 else 0
  }

  /** How many of them got no answer from the limiter. */
  function UnansweredIn(attempts: seq<Attempt>, lo: int, hi: int): nat {
    if attempts == [] then 0
    else
      var init, last := attempts[..|attempts| - 1], attempts[|attempts| - 1];
      UnansweredIn(init, lo, hi) + if Asked(last, lo, hi) && !last.reply.Acked? then 1 else 0
  }

  function AdmittedIn(reqs: seq<Request>, lo: int, hi: int): nat {
    InWindow(Times(reqs), Replay(reqs, true).1, |reqs|, lo, hi)
  }

  lemma AdmittedSnoc(reqs: seq<Request>, r: Request, lo: int, hi: int)
    ensures AdmittedIn(reqs + [r], lo, hi) ==
            AdmittedIn(reqs, lo, hi) + if lo < r.now <= hi && Verdict(reqs + [r]) then 1 else 0
  {
    ReplaySnoc(reqs, r, true);
    assert (reqs + [r])[..|reqs|] == reqs;
    assert Replay(reqs + [r], true).1[..|reqs|] == Replay(reqs, true).1;
    TimesPrefix(reqs + [r], Replay(reqs + [r], true).1, |reqs|, lo, hi);
  }

  /** In every run, whatever the clocks, the queries that go on are admissions or got no answer. */
  lemma {:induction false} PassedAreAdmittedOrUnanswered(attempts: seq<Attempt>, lo: int, hi: int)
    ensures PassedIn(attempts, lo, hi) <= AdmittedIn(Executed(attempts), lo, hi) + UnansweredIn(attempts, lo, hi)
  {
    if attempts != [] {
      var init, last := attempts[..|attempts| - 1], attempts[|attempts| - 1];
      PassedAreAdmittedOrUnanswered(init, lo, hi);
      if last.reply.Unreachable? {
        assert Executed(attempts) == Executed(init);
      } else {
        AdmittedSnoc(Executed(init), last.request, lo, hi);
      }
    }
  }

  /** How far the limiter fails open: in every run of one user's queries under one limit and window, wherever a
      window that fits into the duration ends, the queries in it that go on exceed the limit by at most those
      that got no answer. */
  lemma FailOpenBound(attempts: seq<Attempt>, serial: nat, windowNs: int, win: int, limit: int, t: int)
    requires AskedFor(Executed(attempts), windowNs, limit)
    requires Numbered(Executed(attempts), serial) && InTime(Executed(attempts)) && win * 1_000_000 <= windowNs
    ensures PassedIn(attempts, t - win, t) <= Cap(limit) + UnansweredIn(attempts, t - win, t)
  {
    var reqs := Executed(attempts);
    AskedIsAlike(reqs, windowNs, limit);
    NumberedBelow(reqs, serial);
    RegularIsBounded(reqs, WinMs(windowNs), limit, t);
    WinMsIsWhole(windowNs, win);
    ShorterAdmits(reqs, t - win, t - WinMs(windowNs), t);
    PassedAreAdmittedOrUnanswered(attempts, t - win, t);
  }

  lemma ShorterAdmits(reqs: seq<Request>, lo: int, lower: int, hi: int)
    requires lower <= lo
    ensures AdmittedIn(reqs, lo, hi) <= AdmittedIn(reqs, lower, hi)
  {
    Wider(Times(reqs), Replay(reqs, true).1, |reqs|, lo, hi, lower, hi);
  }

  lemma RegularIsBounded(reqs: seq<Request>, win: int, limit: int, t: int)
    requires Regular(reqs, win, limit)
    ensures AdmittedIn(reqs, t - win, t) <= Cap(limit)
  {
    ReplayIsGreedy(reqs, win, limit, true);
    GreedyRespects(Times(reqs), win, limit);
    assert Window(Times(reqs), Greedy(Times(reqs), win, limit), win, t) <= Cap(limit);
  }

  class RateLimiter {
    var sets: map<string, SortedSet>
    var serial: nat
    ghost var calls: map<string, seq<Request>>  // per user, the calls whose script was executed

    function SetOf(user: string): SortedSet
      reads this`sets
    {
      if user in sets then sets[user] else ABSENT
    }

    ghost function CallsOf(user: string): seq<Request>
      reads this`calls
    {
      if user in calls then calls[user] else []
    }

    ghost predicate Valid()
      reads this
    {
      forall user :: Consistent(SetOf(user), CallsOf(user), serial)
    }

    constructor ()
      ensures Valid() && calls == map[]
    {
      sets := map[];
      serial := 0;
      calls := map[];
    }

    method EvalAllow(user: string, r: Request) returns (admitted: bool)
      modifies this`sets
      ensures forall u :: SetOf(u) == if u == user then Script(old(SetOf(user)), r, true).0 else old(SetOf(u))
      ensures admitted == Script(old(SetOf(user)), r, true).1
    {
      var z := Fetch(SetOf(user), r.executed, r.reaped);
      z := RemoveRange(z, 0, r.now - r.winMs);
      var count := |z.entries|;
      if count < r.limit {
        z := z.(entries := z.entries[r.member := r.now]);
        z := Expire(z, r.executed, r.ttlSec);
        admitted := true;
      } else {
        admitted := false;
      }
      sets := sets[user := z];
    }

    /** A call returns an error when Redis is unreachable and when its reply is lost; in the second case
        the script has run all the same. Other users' keys are untouched. */
    method AllowQuery(user: string, limit: int, windowNs: int, now: nat, executed: int, reply: Reply, reaped: bool)
      returns (allowed: bool, failed: bool)
      requires Valid()
      modifies this
      ensures Valid() && serial == old(serial) + 1
      ensures var r := Request(now, WinMs(windowNs), TtlSec(windowNs), limit, Member(now, serial), executed, reaped);
              forall u :: CallsOf(u) == if u == user && !reply.Unreachable? then old(CallsOf(user)) + [r]
                                        else old(CallsOf(u))
      ensures failed == !reply.Acked?
      ensures allowed == (reply.Acked? && Verdict(CallsOf(user)))
    {
      var winMs, ttlSec := WinMs(windowNs), TtlSec(windowNs);
      serial := serial + 1;
      var r := Request(now, winMs, ttlSec, limit, Member(now, serial), executed, reaped);
      forall u ensures Consistent(SetOf(u), CallsOf(u), serial) {
        ConsistentLater(SetOf(u), CallsOf(u), serial - 1);
      }
      if reply.Unreachable? {
        return false, true;
      }
      ConsistentSnoc(SetOf(user), CallsOf(user), r, serial - 1);
      var admitted := EvalAllow(user, r);
      calls := calls[user := CallsOf(user) + [r]];
      return admitted && reply.Acked?, !reply.Acked?;
    }
  }
}
