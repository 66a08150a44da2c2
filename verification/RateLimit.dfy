/** Sliding windows: what a limiter that admits whenever it can achieves, on one user's requests. */
module RateLimit {

  /** Request times never go back. */
  predicate Ordered(ts: seq<nat>) {
    forall i, j :: 0 <= i < j < |ts| ==> ts[i] <= ts[j]
  }

  /** How many of the first n requests are selected and fall in (lo, hi]. */
  function InWindow(ts: seq<nat>, sel: seq<bool>, n: nat, lo: int, hi: int): (c: nat)
    requires n <= |ts| && n <= |sel|
  {
    if n == 0 then 0
    else InWindow(ts, sel, n - 1, lo, hi) + if sel[n - 1] && lo < ts[n - 1] <= hi then 1 else 0
  }

  function Count(sel: seq<bool>, n: nat): nat
    requires n <= |sel|
  {
    if n == 0 then 0 else Count(sel, n - 1) + if sel[n - 1] then 1 else 0
  }

  /** The policy: admit if fewer than `limit` of the earlier admissions are within the last `win`. */
  function Greedy(ts: seq<nat>, win: int, limit: int): (sel: seq<bool>)
    ensures |sel| == |ts|
  {
    if ts == [] then []
    else
      var init, now := ts[..|ts| - 1], ts[|ts| - 1];
      var sel := Greedy(init, win, limit);
      sel + [InWindow(init, sel, |init|, now - win, now) < limit]
  }

  function Cap(limit: int): nat {
    if limit < 0 then 0 else limit
  }

  function Window(ts: seq<nat>, sel: seq<bool>, win: int, t: int): nat
    requires |sel| == |ts|
  {
    InWindow(ts, sel, |ts|, t - win, t)
  }

  /** No window of length `win`, wherever it ends, holds more than `limit` selected requests. */
  ghost predicate Respects(ts: seq<nat>, sel: seq<bool>, win: int, limit: int) {
    |sel| == |ts| && forall t: int :: Window(ts, sel, win, t) <= Cap(limit)
  }

  /** Every refusal met exactly `limit` admissions in the window that ends with the refused request. */
  ghost predicate RefusesOnlyWhenFull(ts: seq<nat>, sel: seq<bool>, win: int, limit: int)
    requires |sel| == |ts|
  {
    limit >= 0 ==> forall i :: 0 <= i < |ts| && !sel[i] ==> InWindow(ts, sel, i, ts[i] - win, ts[i]) == limit
  }

  // ---------- counting ----------

  lemma {:induction false} SamePrefix(ts: seq<nat>, us: seq<nat>, sel: seq<bool>, alt: seq<bool>, n: nat, lo: int, hi: int)
    requires n <= |ts| && n <= |us| && n <= |sel| && n <= |alt|
    requires ts[..n] == us[..n] && sel[..n] == alt[..n]
    ensures InWindow(ts, sel, n, lo, hi) == InWindow(us, alt, n, lo, hi)
  {
    if n > 0 {
      assert ts[n - 1] == ts[..n][n - 1] == us[n - 1] && sel[n - 1] == sel[..n][n - 1] == alt[n - 1];
      assert ts[..n - 1] == ts[..n][..n - 1] && us[..n - 1] == us[..n][..n - 1];
      assert sel[..n - 1] == sel[..n][..n - 1] && alt[..n - 1] == alt[..n][..n - 1];
      SamePrefix(ts, us, sel, alt, n - 1, lo, hi);
    }
  }

  lemma {:induction false} Wider(ts: seq<nat>, sel: seq<bool>, n: nat, lo: int, hi: int, lo': int, hi': int)
    requires n <= |ts| && n <= |sel|
    requires forall i :: 0 <= i < n && lo < ts[i] <= hi ==> lo' < ts[i] <= hi'
    ensures InWindow(ts, sel, n, lo, hi) <= InWindow(ts, sel, n, lo', hi')
  {
    if n > 0 {
      Wider(ts, sel, n - 1, lo, hi, lo', hi');
    }
  }

  lemma {:induction false} Longer(ts: seq<nat>, sel: seq<bool>, m: nat, n: nat, lo: int, hi: int)
    requires m <= n <= |ts| && n <= |sel|
    ensures InWindow(ts, sel, m, lo, hi) <= InWindow(ts, sel, n, lo, hi)
  {
    if m < n {
      Longer(ts, sel, m, n - 1, lo, hi);
    }
  }

  /** For ordered requests, a window ending no earlier than the n-th request starts at some index m. */
  lemma {:induction false} WindowIsRange(ts: seq<nat>, n: nat, lo: int) returns (m: nat)
    requires n <= |ts| && Ordered(ts)
    ensures m <= n && (forall j :: 0 <= j < m ==> ts[j] <= lo) && (forall j :: m <= j < n ==> lo < ts[j])
  {
    if n == 0 {
      m := 0;
    } else if ts[n - 1] <= lo {
      m := n;
    } else {
      m := WindowIsRange(ts, n - 1, lo);
    }
  }

  lemma {:induction false} RangeCount(ts: seq<nat>, sel: seq<bool>, m: nat, n: nat, lo: int, hi: int)
    requires m <= n <= |ts| && n <= |sel|
    requires forall j :: 0 <= j < m ==> ts[j] <= lo
    requires forall j :: m <= j < n ==> lo < ts[j] <= hi
    ensures InWindow(ts, sel, n, lo, hi) == Count(sel, n) - Count(sel, m)
  {
    if n > 0 {
      if m < n {
        RangeCount(ts, sel, m, n - 1, lo, hi);
      } else {
        NothingAbove(ts, sel, n, lo, hi);
      }
    }
  }

  lemma {:induction false} NothingAbove(ts: seq<nat>, sel: seq<bool>, n: nat, lo: int, hi: int)
    requires n <= |ts| && n <= |sel| && forall j :: 0 <= j < n ==> ts[j] <= lo || hi < ts[j]
    ensures InWindow(ts, sel, n, lo, hi) == 0
  {
    if n > 0 {
      NothingAbove(ts, sel, n - 1, lo, hi);
    }
  }

  lemma {:induction false} EmptyWindow(ts: seq<nat>, sel: seq<bool>, n: nat, lo: int, hi: int)
    requires n <= |ts| && n <= |sel| && hi <= lo
    ensures InWindow(ts, sel, n, lo, hi) == 0
  {
    if n > 0 {
      EmptyWindow(ts, sel, n - 1, lo, hi);
    }
  }

  lemma EmptyWindowsKept(ts: seq<nat>, sel: seq<bool>, win: int, limit: int)
    requires |sel| == |ts| && win <= 0
    ensures Respects(ts, sel, win, limit)
  {
    forall t: int ensures Window(ts, sel, win, t) <= Cap(limit) {
      EmptyWindow(ts, sel, |ts|, t - win, t);
    }
  }

  lemma ShorterWindows(ts: seq<nat>, sel: seq<bool>, win: int, shorter: int, limit: int)
    requires Respects(ts, sel, win, limit) && shorter <= win
    ensures Respects(ts, sel, shorter, limit)
  {
    forall t: int ensures Window(ts, sel, shorter, t) <= Cap(limit) {
      assert Window(ts, sel, win, t) <= Cap(limit);
      Wider(ts, sel, |ts|, t - shorter, t, t - win, t);
    }
  }

  /** The positions selected. */
  function Chosen(sel: seq<bool>, n: nat): set<nat>
    requires n <= |sel|
  {
    set i: nat | i < n && sel[i]
  }

  /** The positions selected in a window. */
  function ChosenIn(ts: seq<nat>, sel: seq<bool>, n: nat, lo: int, hi: int): set<nat>
    requires n <= |ts| && n <= |sel|
  {
    set i: nat | i < n && sel[i] && lo < ts[i] <= hi
  }

  lemma OneMoreChosen(before: set<nat>, all: set<nat>, k: nat, more: bool)
    requires k !in before && forall i: nat :: i in all <==> i in before || (more && i == k)
    ensures |all| == |before| + if more then 1 else 0
  {
    assert all == if more then before + {k} else before;
  }

  /** The number in a window is the number of positions selected in it. */
  lemma {:induction false} InWindowCounts(ts: seq<nat>, sel: seq<bool>, n: nat, lo: int, hi: int)
    requires n <= |ts| && n <= |sel|
    ensures InWindow(ts, sel, n, lo, hi) == |ChosenIn(ts, sel, n, lo, hi)|
  {
    if n > 0 {
      InWindowCounts(ts, sel, n - 1, lo, hi);
      OneMoreChosen(ChosenIn(ts, sel, n - 1, lo, hi), ChosenIn(ts, sel, n, lo, hi), n - 1,
                    sel[n - 1] && lo < ts[n - 1] <= hi);
    }
  }

  lemma {:induction false} CountCounts(sel: seq<bool>, n: nat)
    requires n <= |sel|
    ensures Count(sel, n) == |Chosen(sel, n)|
  {
    if n > 0 {
      CountCounts(sel, n - 1);
      OneMoreChosen(Chosen(sel, n - 1), Chosen(sel, n), n - 1, sel[n - 1]);
    }
  }

  // ---------- the greedy policy, request by request ----------

  /** Request i is admitted if and only if fewer than `limit` earlier admissions are in its window. */
  lemma {:induction false} GreedyAt(ts: seq<nat>, win: int, limit: int, i: nat)
    requires i < |ts|
    ensures var g := Greedy(ts, win, limit);
            g[i] <==> InWindow(ts, g, i, ts[i] - win, ts[i]) < limit
  {
    var init, g := ts[..|ts| - 1], Greedy(ts, win, limit);
    var d := Greedy(init, win, limit);
    assert g[..|init|] == d;
    SamePrefix(ts, init, g, d, i, ts[i] - win, ts[i]) by {
      assert ts[..i] == init[..i] && g[..i] == d[..i];
    }
    if i < |init| {
      GreedyAt(init, win, limit, i);
      assert g[i] == d[i] && init[i] == ts[i];
    } else {
      assert init[..i] == ts[..i];
    }
  }

  lemma {:induction false} BoundedPrefix(ts: seq<nat>, win: int, limit: int, n: nat, t: int)
    requires Ordered(ts) && n <= |ts|
    ensures InWindow(ts, Greedy(ts, win, limit), n, t - win, t) <= Cap(limit)
  {
    var g := Greedy(ts, win, limit);
    if n > 0 {
      BoundedPrefix(ts, win, limit, n - 1, t);
      var x := ts[n - 1];
      if g[n - 1] && t - win < x <= t {
        GreedyAt(ts, win, limit, n - 1);
        Wider(ts, g, n - 1, t - win, t, x - win, x);
      }
    }
  }

  /** Whole-run bound: in no window, wherever it ends, are more than `limit` requests admitted; and a
      request is refused only when exactly `limit` admissions lie in the window that ends with it. */
  lemma GreedyRespects(ts: seq<nat>, win: int, limit: int)
    requires Ordered(ts)
    ensures Respects(ts, Greedy(ts, win, limit), win, limit)
    ensures RefusesOnlyWhenFull(ts, Greedy(ts, win, limit), win, limit)
  {
    var g := Greedy(ts, win, limit);
    forall t: int ensures Window(ts, g, win, t) <= Cap(limit) {
      BoundedPrefix(ts, win, limit, |ts|, t);
    }
    forall i | 0 <= i < |ts| && !g[i] && limit >= 0
      ensures InWindow(ts, g, i, ts[i] - win, ts[i]) == limit
    {
      GreedyAt(ts, win, limit, i);
      BoundedPrefix(ts, win, limit, i, ts[i]);
    }
  }

  /** A refused request: the rival cannot have got ahead since the window before it opened. */
  lemma RefusalStep(ts: seq<nat>, rival: seq<bool>, win: int, limit: int, i: nat) returns (m: nat)
    requires Ordered(ts) && Respects(ts, rival, win, limit) && win > 0
    requires i < |ts| && !Greedy(ts, win, limit)[i]
    ensures m <= i
    ensures Count(rival, i + 1) - Count(rival, m) <= Count(Greedy(ts, win, limit), i) - Count(Greedy(ts, win, limit), m)
  {
    var g, now := Greedy(ts, win, limit), ts[i];
    m := WindowIsRange(ts, i, now - win);
    GreedyAt(ts, win, limit, i);
    RangeCount(ts, g, m, i, now - win, now);
    RangeCount(ts, rival, m, i + 1, now - win, now);
    Longer(ts, rival, i + 1, |ts|, now - win, now);
    assert Window(ts, rival, win, now) <= Cap(limit);
    CountGrows(g, m, i);
  }

  lemma {:induction false} CountGrows(sel: seq<bool>, m: nat, n: nat)
    requires m <= n <= |sel|
    ensures Count(sel, m) <= Count(sel, n)
  {
    if m < n {
      CountGrows(sel, m, n - 1);
    }
  }

  /** Optimality: whatever other selection keeps every window within the limit, at no point of the run has
      it admitted more requests than the greedy policy. */
  lemma {:induction false} GreedyIsOptimal(ts: seq<nat>, rival: seq<bool>, win: int, limit: int, n: nat)
    requires Ordered(ts) && Respects(ts, rival, win, limit) && n <= |ts|
    requires win > 0 || limit > 0
    ensures Count(rival, n) <= Count(Greedy(ts, win, limit), n)
    decreases n
  {
    if n > 0 {
      GreedyIsOptimal(ts, rival, win, limit, n - 1);
      var i := n - 1;
      if !Greedy(ts, win, limit)[i] {
        if win > 0 {
          var m := RefusalStep(ts, rival, win, limit, i);
          GreedyIsOptimal(ts, rival, win, limit, m);
        } else {
          GreedyAt(ts, win, limit, i);
          NothingAbove(ts, Greedy(ts, win, limit), i, ts[i] - win, ts[i]);
        }
      }
    }
  }

  /** An empty window holds nothing, so with a zero limit it constrains nobody but the greedy policy, which
      refuses everything. Optimality thus holds for all runs if and only if the window or the limit is positive. */
  lemma OptimalIffProper(win: int, limit: int)
    ensures win > 0 || limit > 0 <==>
            forall ts, rival :: Ordered(ts) && Respects(ts, rival, win, limit) ==>
              Count(rival, |rival|) <= Count(Greedy(ts, win, limit), |ts|)
  {
    if win > 0 || limit > 0 {
      forall ts, rival | Ordered(ts) && Respects(ts, rival, win, limit)
        ensures Count(rival, |rival|) <= Count(Greedy(ts, win, limit), |ts|)
      {
        GreedyIsOptimal(ts, rival, win, limit, |ts|);
      }
    } else {
      var ts, rival: seq<bool> := [0 as nat], [true];
      forall t: int ensures Window(ts, rival, win, t) <= Cap(limit) {
        NothingAbove(ts, rival, 1, t - win, t);
      }
      GreedyAt(ts, win, limit, 0);
      assert Count(rival, 1) == 1 && Count(Greedy(ts, win, limit), 1) == 0;
    }
  }

  /** Hence the k-th admission of the greedy policy never comes later than a rival's k-th. */
  lemma {:induction false} KthAdmissionNoLater(ts: seq<nat>, rival: seq<bool>, win: int, limit: int, i: nat)
    returns (j: nat)
    requires Ordered(ts) && Respects(ts, rival, win, limit) && (win > 0 || limit > 0)
    requires i < |ts| && rival[i]
    ensures j <= i && Greedy(ts, win, limit)[j]
    ensures Count(Greedy(ts, win, limit), j + 1) == Count(rival, i + 1)
  {
    GreedyIsOptimal(ts, rival, win, limit, i + 1);
    j := KthAt(Greedy(ts, win, limit), i + 1, Count(rival, i + 1));
  }

  lemma {:induction false} KthAt(sel: seq<bool>, n: nat, k: nat) returns (j: nat)
    requires n <= |sel| && 1 <= k <= Count(sel, n)
    ensures j < n && sel[j] && Count(sel, j + 1) == k
  {
    if sel[n - 1] && Count(sel, n) == k {
      j := n - 1;
    } else {
      j := KthAt(sel, n - 1, k);
    }
  }
}
