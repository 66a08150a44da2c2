/** Calls that overtake one another between their caller's clock and the limiter's script: which windows stay
    bounded, and when EXPIRE can be seen. */
module Overtaking {
  import opened RateLimit
  import opened Limiter
  import opened Wrappers

  /** Scripts run one after the other, each between 0 and `lag` ms after its caller took the clock, on a server
      whose clock is `skew` ahead. So the callers' times may step back by up to `lag`. */
  predicate Lagging(reqs: seq<Request>, skew: int, lag: nat) {
    && (forall i, j :: 0 <= i < j < |reqs| ==> reqs[i].executed <= reqs[j].executed)
    && (forall i :: 0 <= i < |reqs| ==> 0 <= reqs[i].executed - skew - reqs[i].now <= lag)
  }

  /** The second map has all entries of the first. */
  predicate Has(few: Entries, many: Entries) {
    forall m :: m in few ==> m in many && many[m] == few[m]
  }

  lemma HasCount(few: Entries, many: Entries)
    requires Has(few, many)
    ensures |few| <= |many|
  {
    SubsetCount(few.Keys, many.Keys);
    assert |few| == |few.Keys| && |many| == |many.Keys|;
  }

  lemma {:induction false} SubsetCount<T>(a: set<T>, b: set<T>)
    requires a <= b
    ensures |a| <= |b|
  {
    if x :| x in a {
      SubsetCount(a - {x}, b - {x});
    }
  }

  /** Scores are past, the key outlives the window of each, and every admission still in the window of a call
      made now is there. */
  predicate Recent(z: SortedSet, scores: Entries, now: int, win: int, skew: int) {
    && (forall m :: m in z.entries ==> z.entries[m] <= now)
    && (z.deadline.Some? ==> forall m :: m in z.entries ==> z.entries[m] + skew + win <= z.deadline.value)
    && Has(scores, z.entries)
  }

  lemma RecentSurvivePrune(z: SortedSet, scores: Entries, later: Entries, r: Request, now: int, skew: int)
    requires Recent(z, scores, now, r.winMs, skew) && r.now <= r.executed - skew
    requires later == Above(scores, r.executed - skew - r.winMs)
    ensures Has(later, Pruned(z, r))
    ensures forall m :: m in Pruned(z, r) ==> m in z.entries && Pruned(z, r)[m] == z.entries[m]
  {
    forall m | m in later ensures m in Pruned(z, r) && Pruned(z, r)[m] == later[m] {
      assert m in scores && z.entries[m] == scores[m];
    }
  }

  lemma ScriptDeadline(z: SortedSet, r: Request)
    ensures var (after, ok) := Script(z, r, true);
            && (ok && r.ttlSec > 0 ==> after.deadline == Some(r.executed + r.ttlSec * 1000))
            && (ok && r.ttlSec <= 0 ==> after.deadline == None)
            && (!ok && after.deadline.Some? ==> after.deadline == z.deadline)
  {
    assert r.member in Pruned(z, r)[r.member := r.now];
  }

  lemma RecentAfterScript(z: SortedSet, scores: Entries, rest: Entries, r: Request, now: int, skew: int)
    requires Recent(z, scores, now, r.winMs, skew) && r.winMs <= r.ttlSec * 1000
    requires r.now <= r.executed - skew && now <= r.executed - skew
    requires Has(rest, Pruned(z, r)) && r.member !in rest
    requires forall m :: m in rest ==> r.executed - skew - r.winMs < rest[m] <= now
    requires forall m :: m in Pruned(z, r) ==> m in z.entries && Pruned(z, r)[m] == z.entries[m]
    ensures var (after, ok) := Script(z, r, true);
            Recent(after, Joined(rest, r, ok, r.executed - skew - r.winMs), r.executed - skew, r.winMs, skew)
  {
    ScriptEntries(z, r, true);
    ScriptDeadline(z, r);
    var (after, ok) := Script(z, r, true);
    forall m | m in after.entries
      ensures after.entries[m] <= r.executed - skew
      ensures after.deadline.Some? ==> after.entries[m] + skew + r.winMs <= after.deadline.value
    {
      assert m != r.member || !ok ==> m in z.entries;
    }
    assert r.winMs <= 0 ==> forall m :: m !in rest;
  }

  lemma LaggingPrefix(reqs: seq<Request>, r: Request, skew: int, lag: nat)
    requires Lagging(reqs + [r], skew, lag)
    ensures Lagging(reqs, skew, lag) && 0 <= r.executed - skew - r.now <= lag
    ensures forall i :: 0 <= i < |reqs| ==> reqs[i].executed <= r.executed && reqs[i].now <= r.executed - skew
  {
    var all := reqs + [r];
    assert all[|reqs|] == r;
    forall i | 0 <= i < |reqs| ensures reqs[i].executed <= r.executed && reqs[i].now <= r.executed - skew {
      assert all[i] == reqs[i];
    }
    assert forall i :: 0 <= i < |reqs| ==> reqs[i] == all[i];
  }

  /** When the last script ran, in the callers' time. */
  function LastRun(reqs: seq<Request>, skew: int): int {
    if reqs == [] then 0 else reqs[|reqs| - 1].executed - skew
  }

  lemma RunBefore(reqs: seq<Request>, skew: int, lag: nat)
    requires Lagging(reqs, skew, lag)
    ensures forall i :: 0 <= i < |reqs| ==> reqs[i].now <= LastRun(reqs, skew)
  {
  }

  lemma SurvivorsArePast(reqs: seq<Request>, sel: seq<bool>, cutoff: int, now: int)
    requires |sel| == |reqs| && forall i :: 0 <= i < |reqs| ==> reqs[i].now <= now
    ensures forall m :: m in Survivors(reqs, sel, cutoff) ==> Survivors(reqs, sel, cutoff)[m] <= now
  {
    SurvivorsFrom(reqs, sel, cutoff);
  }

  predicate LagInvariant(z: SortedSet, reqs: seq<Request>, sel: seq<bool>, win: int, skew: int) {
    && |sel| == |reqs|
    && if reqs == [] then z == ABSENT
       else Recent(z, Survivors(reqs, sel, LastRun(reqs, skew) - win), LastRun(reqs, skew), win, skew)
  }

  lemma LagSurvivors(reqs: seq<Request>, sel: seq<bool>, r: Request, win: int, skew: int, lag: nat)
    requires |sel| == |reqs| && Lagging(reqs + [r], skew, lag) && DistinctMembers(reqs)
    ensures var now, cutoff := LastRun(reqs, skew), r.executed - skew - win;
            && (reqs != [] ==> Above(Survivors(reqs, sel, now - win), cutoff) == Survivors(reqs, sel, cutoff)
                               && now <= r.executed - skew)
            && forall m :: m in Survivors(reqs, sel, cutoff) ==> cutoff < Survivors(reqs, sel, cutoff)[m] <= now
  {
    LaggingPrefix(reqs, r, skew, lag);
    var now, cutoff := LastRun(reqs, skew), r.executed - skew - win;
    RunBefore(reqs, skew, lag);
    SurvivorsFrom(reqs, sel, cutoff);
    SurvivorsArePast(reqs, sel, cutoff, now);
    if reqs != [] {
      AboveSurvivors(reqs, sel, now - win, cutoff);
    }
  }

  lemma JustMember(reqs: seq<Request>, sel: seq<bool>, r: Request, ok: bool, cutoff: int)
    requires |sel| == |reqs| && DistinctMembers(reqs + [r])
    ensures r.member !in Survivors(reqs, sel, cutoff) && DistinctMembers(reqs)
  {
    var all := reqs + [r];
    assert all[..|reqs|] == reqs && (sel + [ok])[..|reqs|] == sel && all[|reqs|] == r;
    NewMember(all, sel + [ok], cutoff);
    assert forall i :: 0 <= i < |reqs| ==> reqs[i] == all[i];
  }

  /** One script: an admission finds fewer than `limit` others in what is left of the window. */
  lemma LagStep(z: SortedSet, reqs: seq<Request>, sel: seq<bool>, r: Request, win: int, limit: int, skew: int, lag: nat)
    requires Lagging(reqs + [r], skew, lag) && DistinctMembers(reqs + [r])
    requires r.winMs == win <= r.ttlSec * 1000 && r.limit == limit && LagInvariant(z, reqs, sel, win, skew)
    ensures var (after, ok) := Script(z, r, true);
            && LagInvariant(after, reqs + [r], sel + [ok], win, skew)
            && (ok ==> |Survivors(reqs, sel, r.executed - skew - win)| < limit)
  {
    var ok, upto := Script(z, r, true).1, r.executed - skew;
    LaggingPrefix(reqs, r, skew, lag);
    JustMember(reqs, sel, r, ok, upto - win);
    LagSurvivors(reqs, sel, r, win, skew, lag);
    if reqs == [] {
      LagStepRecent(z, reqs, sel, r, map[], upto, skew);
    } else {
      LagStepRecent(z, reqs, sel, r, Survivors(reqs, sel, LastRun(reqs, skew) - win), LastRun(reqs, skew), skew);
    }
  }

  lemma LagStepRecent(z: SortedSet, reqs: seq<Request>, sel: seq<bool>, r: Request, scores: Entries, now: int, skew: int)
    requires |sel| == |reqs| && Recent(z, scores, now, r.winMs, skew) && r.winMs <= r.ttlSec * 1000
    requires r.now <= r.executed - skew && now <= r.executed - skew
    requires var rest := Survivors(reqs, sel, r.executed - skew - r.winMs);
             && rest == Above(scores, r.executed - skew - r.winMs) && r.member !in rest
             && forall m :: m in rest ==> r.executed - skew - r.winMs < rest[m] <= now
    ensures var (after, ok) := Script(z, r, true);
            && LagInvariant(after, reqs + [r], sel + [ok], r.winMs, skew)
            && (ok ==> |Survivors(reqs, sel, r.executed - skew - r.winMs)| < r.limit)
  {
    var (after, ok) := Script(z, r, true);
    var cutoff := r.executed - skew - r.winMs;
    var rest := Survivors(reqs, sel, cutoff);
    LagRecent(z, scores, rest, r, now, skew);
    LagVerdict(z, rest, r);
    LagInvariantFrom(after, reqs, sel, r, ok, cutoff, skew);
  }

  lemma LagVerdict(z: SortedSet, rest: Entries, r: Request)
    requires Has(rest, Pruned(z, r))
    ensures Script(z, r, true).1 ==> |rest| < r.limit
  {
    HasCount(rest, Pruned(z, r));
    ScriptEntries(z, r, true);
  }

  lemma LagInvariantFrom(after: SortedSet, reqs: seq<Request>, sel: seq<bool>, r: Request, ok: bool, cutoff: int, skew: int)
    requires |sel| == |reqs| && cutoff == r.executed - skew - r.winMs
    requires Recent(after, Joined(Survivors(reqs, sel, cutoff), r, ok, cutoff), r.executed - skew, r.winMs, skew)
    ensures LagInvariant(after, reqs + [r], sel + [ok], r.winMs, skew)
  {
    SurvivorsSnoc(reqs, sel, r, ok, cutoff);
    assert (reqs + [r])[|reqs|] == r;
  }

  lemma LagRecent(z: SortedSet, scores: Entries, rest: Entries, r: Request, now: int, skew: int)
    requires Recent(z, scores, now, r.winMs, skew) && r.winMs <= r.ttlSec * 1000
    requires r.now <= r.executed - skew && now <= r.executed - skew
    requires rest == Above(scores, r.executed - skew - r.winMs) && r.member !in rest
    requires forall m :: m in rest ==> r.executed - skew - r.winMs < rest[m] <= now
    ensures Has(rest, Pruned(z, r))
    ensures var (after, ok) := Script(z, r, true);
            Recent(after, Joined(rest, r, ok, r.executed - skew - r.winMs), r.executed - skew, r.winMs, skew)
  {
    RecentSurvivePrune(z, scores, rest, r, now, skew);
    RecentAfterScript(z, scores, rest, r, now, skew);
  }

  /** The windows that an admission closes. */
  lemma LagWindow(reqs: seq<Request>, sel: seq<bool>, r: Request, ok: bool, win: int, limit: int,
                  skew: int, lag: nat, t: int)
    requires |sel| == |reqs| && Lagging(reqs + [r], skew, lag) && DistinctMembers(reqs)
    requires ok ==> |Survivors(reqs, sel, r.executed - skew - win)| < limit
    requires Window(Times(reqs), sel, win - lag, t) <= Cap(limit)
    ensures Window(Times(reqs + [r]), sel + [ok], win - lag, t) <= Cap(limit)
  {
    var k, lo := |reqs|, t - (win - lag);
    LaggingPrefix(reqs, r, skew, lag);
    assert (reqs + [r])[..k] == reqs && (sel + [ok])[..k] == sel;
    TimesPrefix(reqs + [r], sel + [ok], k, lo, t);
    if ok && lo < r.now <= t {
      SurvivorsCount(reqs, sel, r.executed - skew - win, r.executed - skew);
      Wider(Times(reqs), sel, k, lo, t, r.executed - skew - win, r.executed - skew);
    }
  }

  lemma AlikePrefix(reqs: seq<Request>, r: Request, win: int, limit: int)
    requires Alike(reqs + [r], win, limit) && DistinctMembers(reqs + [r])
    ensures Alike(reqs, win, limit) && DistinctMembers(reqs)
    ensures r.winMs == win <= r.ttlSec * 1000 && r.limit == limit
  {
    var all := reqs + [r];
    assert all[|reqs|] == r;
    assert forall i :: 0 <= i < |reqs| ==> all[i] == reqs[i];
  }

  lemma {:induction false} LagInduction(reqs: seq<Request>, win: int, limit: int, skew: int, lag: nat)
    requires Alike(reqs, win, limit) && DistinctMembers(reqs) && Lagging(reqs, skew, lag)
    ensures var (z, sel) := Replay(reqs, true);
            LagInvariant(z, reqs, sel, win, skew) && Respects(Times(reqs), sel, win - lag, limit)
  {
    if reqs != [] {
      var init, r := reqs[..|reqs| - 1], reqs[|reqs| - 1];
      assert reqs == init + [r];
      LaggingPrefix(init, r, skew, lag);
      AlikePrefix(init, r, win, limit);
      LagInduction(init, win, limit, skew, lag);
      var (z, sel) := Replay(init, true);
      ReplaySnoc(init, r, true);
      LagStep(z, init, sel, r, win, limit, skew, lag);
      LagRespects(init, sel, r, Script(z, r, true).1, win, limit, skew, lag);
    }
  }

  lemma LagRespects(reqs: seq<Request>, sel: seq<bool>, r: Request, ok: bool, win: int, limit: int, skew: int, lag: nat)
    requires |sel| == |reqs| && Lagging(reqs + [r], skew, lag) && DistinctMembers(reqs)
    requires ok ==> |Survivors(reqs, sel, r.executed - skew - win)| < limit
    requires Respects(Times(reqs), sel, win - lag, limit)
    ensures Respects(Times(reqs + [r]), sel + [ok], win - lag, limit)
  {
    var shorter := win - lag;
    forall t: int ensures Window(Times(reqs + [r]), sel + [ok], shorter, t) <= Cap(limit) {
      assert Window(Times(reqs), sel, shorter, t) <= Cap(limit);
      LagWindow(reqs, sel, r, ok, win, limit, skew, lag, t);
    }
  }

  /** When calls overtake one another between the caller's clock and the script, by at most `lag` ms, the bound
      still holds for windows shorter by that much. */
  lemma OvertakenCallsKeepShorterWindows(reqs: seq<Request>, windowNs: int, limit: int, skew: int, lag: nat)
    requires AskedFor(reqs, windowNs, limit) && DistinctMembers(reqs) && Lagging(reqs, skew, lag)
    ensures Respects(Times(reqs), Replay(reqs, true).1, WinMs(windowNs) - lag, limit)
  {
    AskedIsAlike(reqs, windowNs, limit);
    LagInduction(reqs, WinMs(windowNs), limit, skew, lag);
  }

  // ---------- only the shorter windows ----------

  function Ask(windowNs: int, limit: int, now: nat, executed: nat, serial: nat): Request {
    Request(now, WinMs(windowNs), TtlSec(windowNs), limit, Member(now, serial), executed, false)
  }

  /** n calls at time 1. */
  function Burst(windowNs: int, limit: int, n: nat): (reqs: seq<Request>)
    ensures |reqs| == n
    ensures forall i :: 0 <= i < n ==> reqs[i] == Ask(windowNs, limit, 1, 1, i)
  {
    if n == 0 then [] else Burst(windowNs, limit, n - 1) + [Ask(windowNs, limit, 1, 1, n - 1)]
  }

  function BurstScores(n: nat): (scores: Entries)
    ensures |scores| == n
    ensures forall m :: m in scores ==> m.serial < n && scores[m] == 1
  {
    if n == 0 then map[] else BurstScores(n - 1)[Member(1, n - 1) := 1]
  }

  function Kept(scores: Entries, r: Request): SortedSet {
    SortedSet(scores, Some(r.executed + r.ttlSec * 1000))
  }

  lemma PrunesNone(z: SortedSet, r: Request)
    requires !r.reaped && forall m :: m in z.entries ==> r.now - r.winMs < z.entries[m]
    ensures Pruned(z, r) == z.entries
  {
    assert forall m :: m in z.entries ==> m in Pruned(z, r);
  }

  lemma PrunesAll(z: SortedSet, r: Request)
    requires !r.reaped && forall m :: m in z.entries ==> z.entries[m] <= r.now - r.winMs
    ensures Pruned(z, r) == map[]
  {
  }

  lemma Admits(z: SortedSet, r: Request, kept: Entries)
    requires Pruned(z, r) == kept && |kept| < r.limit && r.ttlSec > 0
    ensures Script(z, r, true) == (Kept(kept[r.member := r.now], r), true)
  {
    ScriptEntries(z, r, true);
    ScriptDeadline(z, r);
  }

  /** The script admits all of them, one after the other, and leaves this set. */
  predicate AllAdmitted(reqs: seq<Request>, z: SortedSet) {
    Replay(reqs, true).0 == z && AllTrue(Replay(reqs, true).1)
  }

  predicate AllTrue(sel: seq<bool>) {
    forall i :: 0 <= i < |sel| ==> sel[i]
  }

  lemma OneMoreAdmitted(reqs: seq<Request>, z: SortedSet, r: Request)
    requires AllAdmitted(reqs, z) && Script(z, r, true).1
    ensures AllAdmitted(reqs + [r], Script(z, r, true).0)
  {
    ReplaySnoc(reqs, r, true);
  }

  lemma {:induction false} BurstAdmitted(windowNs: int, limit: int, n: nat) returns (z: SortedSet)
    requires windowNs >= 1_000_000 && n <= limit
    ensures z.entries == BurstScores(n) && AllAdmitted(Burst(windowNs, limit, n), z)
    ensures n > 0 ==> z.deadline == Some(1 + TtlSec(windowNs) * 1000)
  {
    if n == 0 {
      z := ABSENT;
      assert Burst(windowNs, limit, 0) == [] && Replay([], true) == (ABSENT, []);
    } else {
      var before := BurstAdmitted(windowNs, limit, n - 1);
      z := BurstStep(before, Burst(windowNs, limit, n - 1), windowNs, limit, n - 1);
    }
  }

  lemma BurstStep(before: SortedSet, reqs: seq<Request>, windowNs: int, limit: int, k: nat) returns (z: SortedSet)
    requires windowNs >= 1_000_000 && k < limit && before.entries == BurstScores(k) && AllAdmitted(reqs, before)
    ensures z.entries == BurstScores(k)[Member(1, k) := 1] && AllAdmitted(reqs + [Ask(windowNs, limit, 1, 1, k)], z)
    ensures z.deadline == Some(1 + TtlSec(windowNs) * 1000)
  {
    var r := Ask(windowNs, limit, 1, 1, k);
    TtlCoversWindow(windowNs);
    PrunesNone(before, r);
    Admits(before, r, before.entries);
    OneMoreAdmitted(reqs, before, r);
    z := Script(before, r, true).0;
  }

  /** A call at the end of the burst's window, and one that took the clock 1 ms before it but is executed
      after it. */
  function LateCalls(windowNs: int, limit: nat): seq<Request>
    requires windowNs >= 1_000_000
  {
    var end := 1 + WinMs(windowNs);
    [Ask(windowNs, limit, end, end, limit), Ask(windowNs, limit, end - 1, end, limit + 1)]
  }

  /** `limit` calls at time 1, and these two. */
  function OvertakenCalls(windowNs: int, limit: nat): seq<Request>
    requires windowNs >= 1_000_000
  {
    Burst(windowNs, limit, limit) + LateCalls(windowNs, limit)
  }

  lemma OvertakenCallsListed(windowNs: int, limit: nat)
    requires windowNs >= 1_000_000
    ensures var reqs := OvertakenCalls(windowNs, limit);
            && AskedFor(reqs, windowNs, limit) && DistinctMembers(reqs) && Lagging(reqs, 0, 1) && |reqs| == limit + 2
            && (forall i :: 0 <= i < limit ==> reqs[i].now == 1)
            && reqs[limit].now == 1 + WinMs(windowNs) && reqs[limit + 1].now == WinMs(windowNs)
  {
    var reqs := OvertakenCalls(windowNs, limit);
    assert forall i :: 0 <= i < |reqs| ==> reqs[i].member.serial == i;
  }

  lemma OvertakenCallsAdmitted(windowNs: int, limit: nat) returns (z: SortedSet)
    requires windowNs >= 1_000_000 && limit >= 2
    ensures AllAdmitted(OvertakenCalls(windowNs, limit), z)
  {
    var first := BurstAdmitted(windowNs, limit, limit);
    z := RestAdmitted(Burst(windowNs, limit, limit), windowNs, limit, first);
  }

  lemma RestAdmitted(burst: seq<Request>, windowNs: int, limit: nat, first: SortedSet) returns (z: SortedSet)
    requires windowNs >= 1_000_000 && limit >= 2 && AllAdmitted(burst, first)
    requires forall m :: m in first.entries ==> first.entries[m] == 1
    ensures AllAdmitted(burst + LateCalls(windowNs, limit), z)
  {
    var end := 1 + WinMs(windowNs);
    var b, c := Ask(windowNs, limit, end, end, limit), Ask(windowNs, limit, end - 1, end, limit + 1);
    TtlCoversWindow(windowNs);
    z := ThenAdmitted(burst, first, b, c);
    assert burst + LateCalls(windowNs, limit) == burst + [b] + [c];
  }

  lemma ThenAdmitted(reqs: seq<Request>, first: SortedSet, b: Request, c: Request) returns (z: SortedSet)
    requires AllAdmitted(reqs, first) && forall m :: m in first.entries ==> first.entries[m] == 1
    requires !b.reaped && !c.reaped && b.now - b.winMs == 1 && c.now - c.winMs < b.now
    requires b.limit > 0 && c.limit > 1 && b.ttlSec > 0 && c.ttlSec > 0
    ensures AllAdmitted(reqs + [b] + [c], z)
  {
    PrunesAll(first, b);
    TwoMoreAdmitted(reqs, first, b, c);
    z := Script(Script(first, b, true).0, c, true).0;
  }

  lemma TwoMoreAdmitted(reqs: seq<Request>, z: SortedSet, b: Request, c: Request)
    requires AllAdmitted(reqs, z) && Pruned(z, b) == map[] && !c.reaped && c.now - c.winMs < b.now
    requires b.limit > 0 && c.limit > 1 && b.ttlSec > 0 && c.ttlSec > 0
    ensures AllAdmitted(reqs + [b] + [c], Script(Script(z, b, true).0, c, true).0)
  {
    var one: Entries := map[b.member := b.now];
    assert map[][b.member := b.now] == one;
    Admits(z, b, map[]);
    OneMoreAdmitted(reqs, z, b);
    PrunesNone(Kept(one, b), c);
    Admits(Kept(one, b), c, one);
    OneMoreAdmitted(reqs + [b], Kept(one, b), c);
  }

  lemma {:induction false} CountsAll(ts: seq<nat>, sel: seq<bool>, n: nat, lo: int, hi: int)
    requires n <= |ts| && n <= |sel| && forall i :: 0 <= i < n ==> sel[i] && lo < ts[i] <= hi
    ensures InWindow(ts, sel, n, lo, hi) == n
  {
    if n > 0 {
      CountsAll(ts, sel, n - 1, lo, hi);
    }
  }

  /** Calls overtaken by a single millisecond break the bound for the full window. */
  lemma ClockStepBackBreaksBound(windowNs: int, limit: nat)
    requires windowNs >= 1_000_000 && limit >= 2
    ensures var reqs := OvertakenCalls(windowNs, limit);
            && AskedFor(reqs, windowNs, limit) && DistinctMembers(reqs) && Lagging(reqs, 0, 1)
            && !Respects(Times(reqs), Replay(reqs, true).1, WinMs(windowNs), limit)
  {
    OvertakenCallsListed(windowNs, limit);
    var z := OvertakenCallsAdmitted(windowNs, limit);
    var reqs := OvertakenCalls(windowNs, limit);
    var win, ts, sel := WinMs(windowNs), Times(reqs), Replay(reqs, true).1;
    CountsAll(ts, sel, limit, 0, win);
    assert InWindow(ts, sel, limit + 1, 0, win) == limit;
    assert Window(ts, sel, win, win) == limit + 1;
  }

  // ---------- EXPIRE under lag ----------

  /** The script's set and the one of the same script without EXPIRE: the same entries, all past, and a key that
      outlives each of them by the whole expiry. */
  predicate Twins(z: SortedSet, plain: SortedSet, outlives: int, now: int, skew: int) {
    && z.entries == plain.entries && plain.deadline.None?
    && (forall m :: m in z.entries ==> z.entries[m] <= now)
    && (z.deadline.Some? ==> forall m :: m in z.entries ==> z.entries[m] + skew + outlives <= z.deadline.value)
  }

  /** A key that has died would have been pruned empty anyway, if the expiry covers the window and the lag. */
  lemma TwinsPruneAlike(z: SortedSet, plain: SortedSet, r: Request, now: int, skew: int, lag: nat)
    requires Twins(z, plain, r.ttlSec * 1000, now, skew)
    requires r.executed - skew - r.now <= lag && r.winMs + lag <= r.ttlSec * 1000
    ensures Pruned(z, r) == Pruned(plain, r)
  {
    if r.reaped && z.deadline.Some? && z.deadline.value <= r.executed {
      assert forall m :: m in z.entries ==> z.entries[m] <= r.now - r.winMs;
    }
  }

  lemma PlainDeadline(z: SortedSet, r: Request)
    requires z.deadline.None?
    ensures Script(z, r, false).0.deadline.None?
  {
  }

  lemma TwinsStep(z: SortedSet, plain: SortedSet, r: Request, now: int, skew: int, lag: nat)
    requires Twins(z, plain, r.ttlSec * 1000, now, skew) && now <= r.executed - skew
    requires 0 <= r.executed - skew - r.now <= lag && r.winMs + lag <= r.ttlSec * 1000 && r.ttlSec > 0
    ensures Script(z, r, true).1 == Script(plain, r, false).1
    ensures Twins(Script(z, r, true).0, Script(plain, r, false).0, r.ttlSec * 1000, r.executed - skew, skew)
  {
    TwinsPruneAlike(z, plain, r, now, skew, lag);
    ScriptEntries(z, r, true);
    ScriptEntries(plain, r, false);
    ScriptDeadline(z, r);
    PlainDeadline(plain, r);
    var (after, ok) := Script(z, r, true);
    forall m | m in after.entries
      ensures after.entries[m] <= r.executed - skew
      ensures after.deadline.Some? ==> after.entries[m] + skew + r.ttlSec * 1000 <= after.deadline.value
    {
      PrunedIsPart(z, r);
      assert m != r.member || !ok ==> m in z.entries && after.entries[m] == z.entries[m];
    }
  }

  lemma PrunedIsPart(z: SortedSet, r: Request)
    ensures forall m :: m in Pruned(z, r) ==> m in z.entries && Pruned(z, r)[m] == z.entries[m]
  {
  }

  lemma AskedForPrefix(reqs: seq<Request>, r: Request, windowNs: int, limit: int)
    requires AskedFor(reqs + [r], windowNs, limit)
    ensures AskedFor(reqs, windowNs, limit)
    ensures r.winMs == WinMs(windowNs) && r.ttlSec == TtlSec(windowNs) && r.limit == limit
  {
    var all := reqs + [r];
    assert all[|reqs|] == r;
    assert forall i :: 0 <= i < |reqs| ==> all[i] == reqs[i];
  }

  /** Where the expiry covers the window and the lag, the script runs as it would without EXPIRE. */
  lemma {:induction false} ReplaysAreTwins(reqs: seq<Request>, windowNs: int, limit: int, skew: int, lag: nat)
    requires AskedFor(reqs, windowNs, limit) && Lagging(reqs, skew, lag)
    requires windowNs >= 1_000_000 && WinMs(windowNs) + lag <= TtlSec(windowNs) * 1000
    ensures var (z, sel) := Replay(reqs, true);
            && sel == Replay(reqs, false).1
            && Twins(z, Replay(reqs, false).0, TtlSec(windowNs) * 1000, LastRun(reqs, skew), skew)
  {
    if reqs != [] {
      var init, r := reqs[..|reqs| - 1], reqs[|reqs| - 1];
      assert reqs == init + [r];
      AskedForPrefix(init, r, windowNs, limit);
      LaggingPrefix(init, r, skew, lag);
      ReplaysAreTwins(init, windowNs, limit, skew, lag);
      var z, plain := Replay(init, true).0, Replay(init, false).0;
      EmptyTwins(z, plain, init, r, skew, TtlSec(windowNs) * 1000);
      TwinsStep(z, plain, r, r.executed - skew, skew, lag);
      ReplaySnoc(init, r, true);
      ReplaySnoc(init, r, false);
    }
  }

  lemma EmptyTwins(z: SortedSet, plain: SortedSet, reqs: seq<Request>, r: Request, skew: int, outlives: int)
    requires Twins(z, plain, outlives, LastRun(reqs, skew), skew)
    requires reqs == [] ==> z == ABSENT
    requires forall i :: 0 <= i < |reqs| ==> reqs[i].executed <= r.executed
    ensures Twins(z, plain, outlives, r.executed - skew, skew)
  {
  }

  // ---------- a limit of one ----------

  lemma {:induction false} NoneSelected(ts: seq<nat>, sel: seq<bool>, n: nat, lo: int, hi: int)
    requires n <= |ts| && n <= |sel| && forall i :: 0 <= i < n && sel[i] ==> !(lo < ts[i] <= hi)
    ensures InWindow(ts, sel, n, lo, hi) == 0
  {
    if n > 0 {
      NoneSelected(ts, sel, n - 1, lo, hi);
    }
  }

  /** The set holds the latest admission and nothing else, and that one has the greatest time. */
  predicate HoldsLatest(z: SortedSet, reqs: seq<Request>, sel: seq<bool>)
    requires |sel| == |reqs|
  {
    && z.deadline.None?
    && if reqs == [] then z.entries == map[]
       else z.entries != map[]
            && forall m, i :: m in z.entries && 0 <= i < |reqs| && sel[i] ==> reqs[i].now <= z.entries[m]
  }

  /** Under a limit of one an admission comes a whole window after every earlier one, in the callers' times. */
  lemma LatestStep(z: SortedSet, reqs: seq<Request>, sel: seq<bool>, r: Request)
    requires |sel| == |reqs| && HoldsLatest(z, reqs, sel) && r.limit == 1 && r.winMs > 0
    ensures var (after, ok) := Script(z, r, false);
            && HoldsLatest(after, reqs + [r], sel + [ok])
            && (ok ==> forall i :: 0 <= i < |reqs| && sel[i] ==> reqs[i].now <= r.now - r.winMs)
  {
    ScriptEntries(z, r, false);
    PrunedIsPart(z, r);
    PlainDeadline(z, r);
    var (after, ok) := Script(z, r, false);
    if ok {
      assert Pruned(z, r) == map[];
      LatestIsOld(z, reqs, sel, r);
      LatestAdmitted(after, reqs, sel, r);
    } else {
      LatestRefused(z, after, reqs, sel, r);
    }
  }

  lemma LatestIsOld(z: SortedSet, reqs: seq<Request>, sel: seq<bool>, r: Request)
    requires |sel| == |reqs| && HoldsLatest(z, reqs, sel) && Pruned(z, r) == map[]
    ensures forall i :: 0 <= i < |reqs| && sel[i] ==> reqs[i].now <= r.now - r.winMs
  {
    if reqs != [] {
      var m :| m in z.entries;
      assert m !in Pruned(z, r);
      assert z.entries[m] <= r.now - r.winMs;
    }
  }

  lemma LatestAdmitted(after: SortedSet, reqs: seq<Request>, sel: seq<bool>, r: Request)
    requires |sel| == |reqs| && after.deadline.None? && after.entries == map[][r.member := r.now]
    requires forall i :: 0 <= i < |reqs| && sel[i] ==> reqs[i].now <= r.now
    ensures HoldsLatest(after, reqs + [r], sel + [true])
  {
    assert r.member in after.entries;
    var all, flags := reqs + [r], sel + [true];
    forall m, i | m in after.entries && 0 <= i < |all| && flags[i] ensures all[i].now <= after.entries[m] {
      assert i < |reqs| ==> all[i] == reqs[i] && flags[i] == sel[i];
    }
  }

  lemma LatestRefused(z: SortedSet, after: SortedSet, reqs: seq<Request>, sel: seq<bool>, r: Request)
    requires |sel| == |reqs| && HoldsLatest(z, reqs, sel) && after.deadline.None? && after.entries != map[]
    requires forall m :: m in after.entries ==> m in z.entries && after.entries[m] == z.entries[m]
    ensures HoldsLatest(after, reqs + [r], sel + [false])
  {
    var all, flags := reqs + [r], sel + [false];
    forall m, i | m in after.entries && 0 <= i < |all| && flags[i] ensures all[i].now <= after.entries[m] {
      assert i < |reqs| && all[i] == reqs[i] && flags[i] == sel[i];
    }
  }

  lemma OneWindow(reqs: seq<Request>, sel: seq<bool>, r: Request, ok: bool, win: int, t: int)
    requires |sel| == |reqs| && Window(Times(reqs), sel, win, t) <= 1
    requires ok ==> forall i :: 0 <= i < |reqs| && sel[i] ==> reqs[i].now <= r.now - win
    ensures Window(Times(reqs + [r]), sel + [ok], win, t) <= 1
  {
    var k, lo := |reqs|, t - win;
    assert (reqs + [r])[..k] == reqs && (sel + [ok])[..k] == sel;
    TimesPrefix(reqs + [r], sel + [ok], k, lo, t);
    if ok && lo < r.now <= t {
      NoneSelected(Times(reqs), sel, k, lo, t);
    }
  }

  /** Without EXPIRE a limit of one holds for the full window in any order of times. */
  lemma {:induction false} OneIsKept(reqs: seq<Request>, windowNs: int)
    requires AskedFor(reqs, windowNs, 1) && windowNs >= 1_000_000
    ensures var (z, sel) := Replay(reqs, false);
            HoldsLatest(z, reqs, sel) && Respects(Times(reqs), sel, WinMs(windowNs), 1)
  {
    if reqs != [] {
      var init, r := reqs[..|reqs| - 1], reqs[|reqs| - 1];
      assert reqs == init + [r];
      AskedForPrefix(init, r, windowNs, 1);
      OneIsKept(init, windowNs);
      var (z, sel) := Replay(init, false);
      ReplaySnoc(init, r, false);
      LatestStep(z, init, sel, r);
      OneRespects(init, sel, r, Script(z, r, false).1, WinMs(windowNs));
    }
  }

  lemma OneRespects(reqs: seq<Request>, sel: seq<bool>, r: Request, ok: bool, win: int)
    requires |sel| == |reqs| && Respects(Times(reqs), sel, win, 1)
    requires ok ==> forall i :: 0 <= i < |reqs| && sel[i] ==> reqs[i].now <= r.now - win
    ensures Respects(Times(reqs + [r]), sel + [ok], win, 1)
  {
    forall t: int ensures Window(Times(reqs + [r]), sel + [ok], win, t) <= 1 {
      assert Window(Times(reqs), sel, win, t) <= 1;
      OneWindow(reqs, sel, r, ok, win, t);
    }
  }

  // ---------- a call that meets a dead key ----------

  /** `limit` calls at time 1, and one from the last millisecond of their window that is executed when the key
      has just died. */
  function DeadKeyCalls(windowNs: int, limit: nat): seq<Request>
    requires windowNs >= 1_000_000
  {
    Burst(windowNs, limit, limit) + [LastAsk(windowNs, limit)]
  }

  function LastAsk(windowNs: int, limit: nat): Request
    requires windowNs >= 1_000_000
  {
    Request(WinMs(windowNs), WinMs(windowNs), TtlSec(windowNs), limit, Member(WinMs(windowNs), limit),
            1 + TtlSec(windowNs) * 1000, true)
  }

  lemma DeadKeyCallsListed(windowNs: int, limit: nat, lag: nat)
    requires windowNs >= 1_000_000 && TtlSec(windowNs) * 1000 < WinMs(windowNs) + lag
    ensures Overtaken(DeadKeyCalls(windowNs, limit), windowNs, limit, lag)
  {
    TtlCoversWindow(windowNs);
    var reqs := DeadKeyCalls(windowNs, limit);
    assert forall i :: 0 <= i < |reqs| ==> reqs[i].member.serial == i;
    assert Lagging(reqs, 0, lag);
  }

  lemma BurstIsInTime(windowNs: int, limit: int, n: nat)
    ensures AskedFor(Burst(windowNs, limit, n), windowNs, limit) && Lagging(Burst(windowNs, limit, n), 0, 0)
  {
  }

  /** With EXPIRE the last call is admitted, without it refused. */
  lemma DeadKeyVerdicts(windowNs: int, limit: nat)
    requires windowNs >= 1_000_000 && limit > 0
    ensures AllTrue(Replay(DeadKeyCalls(windowNs, limit), true).1)
    ensures !Replay(DeadKeyCalls(windowNs, limit), false).1[limit]
  {
    var burst, r := Burst(windowNs, limit, limit), LastAsk(windowNs, limit);
    var z := BurstAdmitted(windowNs, limit, limit);
    TtlCoversWindow(windowNs);
    BurstIsInTime(windowNs, limit, limit);
    ReplaysAreTwins(burst, windowNs, limit, 0, 0);
    var plain := Replay(burst, false).0;
    ReplaySnoc(burst, r, true);
    ReplaySnoc(burst, r, false);
    AdmittedAfterDeath(z, r);
    RefusedWhileFull(plain, r);
  }

  lemma AdmittedAfterDeath(z: SortedSet, r: Request)
    requires r.reaped && z.deadline.Some? && z.deadline.value <= r.executed && r.limit > 0
    ensures Script(z, r, true).1
  {
    ScriptEntries(z, r, true);
    assert Pruned(z, r) == map[];
  }

  lemma RefusedWhileFull(z: SortedSet, r: Request)
    requires z.deadline.None? && |z.entries| >= r.limit
    requires forall m :: m in z.entries ==> r.now - r.winMs < z.entries[m]
    ensures !Script(z, r, false).1
  {
    ScriptEntries(z, r, false);
    assert forall m :: m in z.entries ==> m in Pruned(z, r) && Pruned(z, r)[m] == z.entries[m];
    HasCount(z.entries, Pruned(z, r));
  }

  lemma DeadKeyBreaksBound(windowNs: int, limit: nat)
    requires windowNs >= 1_000_000 && limit > 0
    ensures var reqs := DeadKeyCalls(windowNs, limit);
            !Respects(Times(reqs), Replay(reqs, true).1, WinMs(windowNs), limit)
  {
    DeadKeyVerdicts(windowNs, limit);
    var reqs, win := DeadKeyCalls(windowNs, limit), WinMs(windowNs);
    CountsAll(Times(reqs), Replay(reqs, true).1, limit + 1, 0, win);
    assert Window(Times(reqs), Replay(reqs, true).1, win, win) == limit + 1;
  }

  // ---------- exactly when ----------

  /** One user's calls, some overtaken by at most `lag` ms, on a server whose clock may be ahead. */
  ghost predicate Overtaken(reqs: seq<Request>, windowNs: int, limit: int, lag: nat) {
    AskedFor(reqs, windowNs, limit) && DistinctMembers(reqs) && exists skew: int :: Lagging(reqs, skew, lag)
  }

  /** EXPIRE changes no verdict, whatever calls are overtaken by up to `lag` ms and whenever the key is
      reclaimed, if and only if the expiry covers the window and the lag. */
  lemma ExpiryUnobservableIff(windowNs: int, limit: nat, lag: nat)
    requires windowNs >= 1_000_000 && limit > 0
    ensures WinMs(windowNs) + lag <= TtlSec(windowNs) * 1000 <==>
            forall reqs :: Overtaken(reqs, windowNs, limit, lag) ==> Replay(reqs, true).1 == Replay(reqs, false).1
  {
    if WinMs(windowNs) + lag <= TtlSec(windowNs) * 1000 {
      forall reqs | Overtaken(reqs, windowNs, limit, lag) ensures Replay(reqs, true).1 == Replay(reqs, false).1 {
        var skew: int :| Lagging(reqs, skew, lag);
        ReplaysAreTwins(reqs, windowNs, limit, skew, lag);
      }
    } else {
      DeadKeyCallsListed(windowNs, limit, lag);
      DeadKeyVerdicts(windowNs, limit);
    }
  }

  lemma {:induction false} NoneAdmitted(reqs: seq<Request>, windowNs: int, limit: int)
    requires AskedFor(reqs, windowNs, limit) && limit <= 0
    ensures forall i :: 0 <= i < |reqs| ==> !Replay(reqs, true).1[i]
  {
    if reqs != [] {
      var init, r := reqs[..|reqs| - 1], reqs[|reqs| - 1];
      assert reqs == init + [r];
      AskedForPrefix(init, r, windowNs, limit);
      NoneAdmitted(init, windowNs, limit);
      ReplaySnoc(init, r, true);
      ScriptEntries(Replay(init, true).0, r, true);
    }
  }

  /** The guard: no window or no admission at all; no lag; or a limit of one whose key outlives the lag. */
  predicate FullWindowSafe(windowNs: int, limit: int, lag: nat) {
    || WinMs(windowNs) <= 0 || limit <= 0 || lag == 0
    || (limit == 1 && WinMs(windowNs) + lag <= TtlSec(windowNs) * 1000)
  }

  lemma NoAdmissionsKept(ts: seq<nat>, sel: seq<bool>, win: int, limit: int)
    requires |sel| == |ts| && forall i :: 0 <= i < |sel| ==> !sel[i]
    ensures Respects(ts, sel, win, limit)
  {
    forall t: int ensures Window(ts, sel, win, t) <= Cap(limit) {
      NoneSelected(ts, sel, |ts|, t - win, t);
    }
  }

  lemma FullWindowKept(reqs: seq<Request>, windowNs: int, limit: int, skew: int, lag: nat)
    requires AskedFor(reqs, windowNs, limit) && DistinctMembers(reqs) && Lagging(reqs, skew, lag)
    requires FullWindowSafe(windowNs, limit, lag)
    ensures Respects(Times(reqs), Replay(reqs, true).1, WinMs(windowNs), limit)
  {
    if WinMs(windowNs) <= 0 {
      EmptyWindowsKept(Times(reqs), Replay(reqs, true).1, WinMs(windowNs), limit);
    } else if limit <= 0 {
      NoneAdmitted(reqs, windowNs, limit);
      NoAdmissionsKept(Times(reqs), Replay(reqs, true).1, WinMs(windowNs), limit);
    } else if lag == 0 {
      OvertakenCallsKeepShorterWindows(reqs, windowNs, limit, skew, 0);
    } else {
      ReplaysAreTwins(reqs, windowNs, limit, skew, lag);
      OneIsKept(reqs, windowNs);
    }
  }

  /** For every limit, window and lag: the full window is bounded in every run if and only if that guard holds. */
  lemma FullWindowIff(windowNs: int, limit: int, lag: nat)
    ensures FullWindowSafe(windowNs, limit, lag) <==>
            forall reqs :: Overtaken(reqs, windowNs, limit, lag) ==>
              Respects(Times(reqs), Replay(reqs, true).1, WinMs(windowNs), limit)
  {
    if FullWindowSafe(windowNs, limit, lag) {
      forall reqs | Overtaken(reqs, windowNs, limit, lag)
        ensures Respects(Times(reqs), Replay(reqs, true).1, WinMs(windowNs), limit)
      {
        var skew: int :| Lagging(reqs, skew, lag);
        FullWindowKept(reqs, windowNs, limit, skew, lag);
      }
    } else if limit == 1 {
      DeadKeyCallsListed(windowNs, limit, lag);
      DeadKeyBreaksBound(windowNs, limit);
    } else {
      ClockStepBackBreaksBound(windowNs, limit);
      MoreLag(OvertakenCalls(windowNs, limit), lag);
      assert Overtaken(OvertakenCalls(windowNs, limit), windowNs, limit, lag);
    }
  }

  lemma MoreLag(reqs: seq<Request>, lag: nat)
    requires Lagging(reqs, 0, 1) && lag >= 1
    ensures Lagging(reqs, 0, lag)
  {
  }
}
