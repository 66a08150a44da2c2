/** The log aggregator: producers that never block, a bounded channel, and one worker that batches. */
module Aggregator {

  datatype DNSLog = DNSLog(timestamp: int, user: string, clientIP: string, domain: string,
                           queryType: string, status: string, elapsed: nat)

  /** What ClickHouse does with a batch; `kept` are the positions of the rows it accepted. */
  datatype Delivery = NotConfigured | PrepareFailed | SendFailed(kept: set<nat>) | Sent(kept: set<nat>)

  // ---------- specification ----------

  /** The last five fields record the past: what was submitted, what was accepted, the batches flushed, the
      rows stored, and how many flushed rows were not. */
  datatype State = State(
    channel: seq<DNSLog>, capacity: nat,
    batch: seq<DNSLog>, threshold: nat, running: bool,
    flushed: nat, dropped: nat, metricDropped: nat,
    submitted: seq<DNSLog>, accepted: seq<DNSLog>, batches: seq<seq<DNSLog>>, stored: seq<DNSLog>, unstored: nat)

  function Init(capacity: nat, threshold: nat): State {
    State([], capacity, [], threshold, true, 0, 0, 0, [], [], [], [], 0)
  }

  /** A submission finds the worker waiting at the empty channel, or not. */
  datatype Event =
    | Submit(log: DNSLog, waiting: bool, d: Delivery)
    | Consume(d: Delivery)
    | Tick(d: Delivery)
    | Shutdown(d: Delivery)

  function Rows(batch: seq<DNSLog>, kept: set<nat>): seq<DNSLog> {
    if batch == [] then []
    else
      var k := |batch| - 1;
      Rows(batch[..k], kept) + if k in kept then [batch[k]] else []
  }

  function StoredOf(batch: seq<DNSLog>, d: Delivery): (rows: seq<DNSLog>) {
    if d.Sent? then Rows(batch, d.kept) else []
  }

  lemma {:induction false} RowsBound(batch: seq<DNSLog>, kept: set<nat>)
    ensures |Rows(batch, kept)| <= |batch|
  {
    if batch != [] {
      RowsBound(batch[..|batch| - 1], kept);
    }
  }

  function Flush(s: State, d: Delivery): State {
    if s.batch == [] then s
    else
      var rows := StoredOf(s.batch, d);
      RowsBound(s.batch, if d.Sent? then d.kept else {});
      s.(batch := [],
         flushed := s.flushed + |s.batch|,
         metricDropped := s.metricDropped + if d.PrepareFailed? || d.SendFailed? then |s.batch| else 0,
         batches := s.batches + [s.batch],
         stored := s.stored + rows,
         unstored := s.unstored + (|s.batch| - |rows|))
  }

  function Append(s: State, log: DNSLog, d: Delivery): State {
    var t := s.(batch := s.batch + [log]);
    if |t.batch| >= t.threshold then Flush(t, d) else t
  }

  function Step(s: State, e: Event): State {
    match e
    case Submit(log, waiting, d) =>
      var t := s.(submitted := s.submitted + [log]);
      if waiting && s.running && s.channel == [] then Append(t.(accepted := s.accepted + [log]), log, d)
      else if |s.channel| < s.capacity then t.(channel := s.channel + [log], accepted := s.accepted + [log])
      else t.(dropped := s.dropped + 1)
    case Consume(d) =>
      if s.running && s.channel != [] then Append(s.(channel := s.channel[1..]), s.channel[0], d) else s
    case Tick(d) => if s.running then Flush(s, d) else s
    case Shutdown(d) => if s.running then Flush(s, d).(running := false) else s
  }

  function Run(s: State, events: seq<Event>): State {
    if events == [] then s else Step(Run(s, events[..|events| - 1]), events[|events| - 1])
  }

  // ---------- laws ----------

  function Flat(batches: seq<seq<DNSLog>>): seq<DNSLog> {
    if batches == [] then [] else Flat(batches[..|batches| - 1]) + batches[|batches| - 1]
  }

  /** a is b with some elements left out. */
  predicate Subsequence(a: seq<DNSLog>, b: seq<DNSLog>) {
    if b == [] then a == []
    else
      var init, last := b[..|b| - 1], b[|b| - 1];
      Subsequence(a, init) || (a != [] && a[|a| - 1] == last && Subsequence(a[..|a| - 1], init))
  }

  lemma SubsequenceSnoc(a: seq<DNSLog>, b: seq<DNSLog>, x: DNSLog)
    requires Subsequence(a, b)
    ensures Subsequence(a, b + [x]) && Subsequence(a + [x], b + [x])
  {
    var c, e := a + [x], b + [x];
    assert e[..|e| - 1] == b && e[|e| - 1] == x;
    assert c[..|c| - 1] == a && c[|c| - 1] == x;
  }

  lemma {:induction false} RowsSubsequence(a: seq<DNSLog>, b: seq<DNSLog>, batch: seq<DNSLog>, kept: set<nat>)
    requires Subsequence(a, b)
    ensures Subsequence(a + Rows(batch, kept), b + batch)
  {
    if batch == [] {
      assert a + [] == a && b + [] == b;
    } else {
      var k := |batch| - 1;
      RowsSubsequence(a, b, batch[..k], kept);
      var rows := Rows(batch[..k], kept);
      SubsequenceSnoc(a + rows, b + batch[..k], batch[k]);
      assert b + batch[..k] + [batch[k]] == b + batch;
      assert a + rows + [batch[k]] == a + (rows + [batch[k]]) && rows + [] == rows;
    }
  }

  lemma {:induction false} NoRowsSubsequence(a: seq<DNSLog>, b: seq<DNSLog>, batch: seq<DNSLog>)
    requires Subsequence(a, b)
    ensures Subsequence(a, b + batch)
  {
    if batch == [] {
      assert b + [] == b;
    } else {
      var k := |batch| - 1;
      NoRowsSubsequence(a, b, batch[..k]);
      SubsequenceSnoc(a, b + batch[..k], batch[k]);
      assert b + batch[..k] + [batch[k]] == b + batch;
    }
  }

  lemma FlatSnoc(batches: seq<seq<DNSLog>>, batch: seq<DNSLog>)
    ensures Flat(batches + [batch]) == Flat(batches) + batch
  {
    assert (batches + [batch])[..|batches|] == batches;
  }

  function Limit(threshold: nat): nat {
    if threshold == 0 then 1 else threshold
  }

  /** Order and conservation of the logs on their way to a flush. */
  predicate Conserves(s: State) {
    && Flat(s.batches) + s.batch + s.channel == s.accepted
    && Subsequence(s.accepted, s.submitted)
    && |s.submitted| == |s.accepted| + s.dropped
    && s.flushed == |Flat(s.batches)|
  }

  predicate Bounded(s: State) {
    && |s.batch| < Limit(s.threshold) && |s.channel| <= s.capacity
    && (forall i :: 0 <= i < |s.batches| ==> 1 <= |s.batches[i]| <= Limit(s.threshold))
    && (!s.running ==> s.batch == [])
  }

  /** What reaches the table is a part of what is flushed, in order; the rest is counted. */
  predicate StoresInOrder(s: State) {
    Subsequence(s.stored, Flat(s.batches)) && s.flushed == |s.stored| + s.unstored && s.metricDropped <= s.unstored
  }

  /** As Bounded, except that the batch may have just reached its limit. */
  predicate Flushable(s: State) {
    && |s.batch| <= Limit(s.threshold) && |s.channel| <= s.capacity && s.running
    && (forall i :: 0 <= i < |s.batches| ==> 1 <= |s.batches[i]| <= Limit(s.threshold))
  }

  lemma FlushKeeps(s: State, d: Delivery)
    requires Conserves(s) && Flushable(s) && StoresInOrder(s)
    ensures var t := Flush(s, d);
            Conserves(t) && Bounded(t) && StoresInOrder(t) && t.batch == []
  {
    if s.batch != [] {
      FlatSnoc(s.batches, s.batch);
      var t := Flush(s, d);
      assert Flat(s.batches) + s.batch + [] + s.channel == Flat(s.batches) + s.batch + s.channel;
      if d.Sent? {
        RowsSubsequence(s.stored, Flat(s.batches), s.batch, d.kept);
        RowsBound(s.batch, d.kept);
      } else {
        NoRowsSubsequence(s.stored, Flat(s.batches), s.batch);
        assert s.stored + [] == s.stored;
      }
    }
  }

  lemma AppendKeeps(s: State, log: DNSLog, d: Delivery)
    requires Flat(s.batches) + s.batch + [log] + s.channel == s.accepted
    requires Subsequence(s.accepted, s.submitted) && |s.submitted| == |s.accepted| + s.dropped
    requires s.flushed == |Flat(s.batches)| && Bounded(s) && StoresInOrder(s) && s.running
    ensures Conserves(Append(s, log, d)) && Bounded(Append(s, log, d)) && StoresInOrder(Append(s, log, d))
  {
    var t := s.(batch := s.batch + [log]);
    assert Flat(s.batches) + (s.batch + [log]) + s.channel == Flat(s.batches) + s.batch + [log] + s.channel;
    FlushKeeps(t, d);
  }

  lemma HandoffKeeps(s: State, log: DNSLog, d: Delivery)
    requires Conserves(s) && Bounded(s) && StoresInOrder(s) && s.running && s.channel == []
    ensures var t := Append(s.(submitted := s.submitted + [log], accepted := s.accepted + [log]), log, d);
            Conserves(t) && Bounded(t) && StoresInOrder(t)
  {
    SubsequenceSnoc(s.accepted, s.submitted, log);
    var front := Flat(s.batches) + s.batch;
    assert front + [log] + [] == front + [] + [log];
    AppendKeeps(s.(submitted := s.submitted + [log], accepted := s.accepted + [log]), log, d);
  }

  lemma EnqueueKeeps(s: State, log: DNSLog)
    requires Conserves(s) && Bounded(s) && StoresInOrder(s) && |s.channel| < s.capacity
    ensures var t := s.(submitted := s.submitted + [log], accepted := s.accepted + [log],
                        channel := s.channel + [log]);
            Conserves(t) && Bounded(t) && StoresInOrder(t)
  {
    SubsequenceSnoc(s.accepted, s.submitted, log);
    var front := Flat(s.batches) + s.batch;
    assert front + (s.channel + [log]) == front + s.channel + [log];
  }

  lemma DropKeeps(s: State, log: DNSLog)
    requires Conserves(s) && Bounded(s) && StoresInOrder(s)
    ensures var t := s.(submitted := s.submitted + [log], dropped := s.dropped + 1);
            Conserves(t) && Bounded(t) && StoresInOrder(t)
  {
    SubsequenceSnoc(s.accepted, s.submitted, log);
  }

  lemma SubmitCases(s: State, log: DNSLog, waiting: bool, d: Delivery)
    ensures Step(s, Submit(log, waiting, d)) ==
            if waiting && s.running && s.channel == [] then
              Append(s.(submitted := s.submitted + [log], accepted := s.accepted + [log]), log, d)
            else if |s.channel| < s.capacity then
              s.(submitted := s.submitted + [log], accepted := s.accepted + [log], channel := s.channel + [log])
            else s.(submitted := s.submitted + [log], dropped := s.dropped + 1)
  {
  }

  lemma SubmitKeeps(s: State, log: DNSLog, waiting: bool, d: Delivery)
    requires Conserves(s) && Bounded(s) && StoresInOrder(s)
    ensures var t := Step(s, Submit(log, waiting, d)); Conserves(t) && Bounded(t) && StoresInOrder(t)
  {
    SubmitCases(s, log, waiting, d);
    if waiting && s.running && s.channel == [] {
      HandoffKeeps(s, log, d);
    } else if |s.channel| < s.capacity {
      EnqueueKeeps(s, log);
    } else {
      DropKeeps(s, log);
    }
  }

  lemma ConsumeKeeps(s: State, d: Delivery)
    requires Conserves(s) && Bounded(s) && StoresInOrder(s)
    ensures var t := Step(s, Consume(d)); Conserves(t) && Bounded(t) && StoresInOrder(t)
  {
    if s.running && s.channel != [] {
      assert s.channel == [s.channel[0]] + s.channel[1..];
      var front := Flat(s.batches) + s.batch;
      assert front + [s.channel[0]] + s.channel[1..] == front + s.channel;
      AppendKeeps(s.(channel := s.channel[1..]), s.channel[0], d);
    }
  }

  lemma StepKeeps(s: State, e: Event)
    requires Conserves(s) && Bounded(s) && StoresInOrder(s)
    ensures Conserves(Step(s, e)) && Bounded(Step(s, e)) && StoresInOrder(Step(s, e))
  {
    match e {
      case Submit(log, waiting, d) => SubmitKeeps(s, log, waiting, d);
      case Consume(d) => ConsumeKeeps(s, d);
      case Tick(d) => if s.running { FlushKeeps(s, d); }
      case Shutdown(d) => if s.running { FlushKeeps(s, d); }
    }
  }

  /** Conservation and order, in every interleaving of producers, worker, ticker and shutdown: the batches
      flushed, the current batch and the channel are, end to end, the accepted logs in order of acceptance;
      every submission is accepted or counted as dropped; batches never exceed the threshold. */
  lemma {:induction false} RunKeepsLogs(capacity: nat, threshold: nat, events: seq<Event>)
    ensures var s := Run(Init(capacity, threshold), events);
            Conserves(s) && Bounded(s) && StoresInOrder(s) && s.capacity == capacity && s.threshold == threshold
  {
    if events != [] {
      RunKeepsLogs(capacity, threshold, events[..|events| - 1]);
      StepKeeps(Run(Init(capacity, threshold), events[..|events| - 1]), events[|events| - 1]);
    }
  }

  lemma {:induction false} RunConcat(s: State, first: seq<Event>, next: seq<Event>)
    ensures Run(s, first + next) == Run(Run(s, first), next)
  {
    if next == [] {
      assert first + next == first;
    } else {
      var init := next[..|next| - 1];
      assert (first + next)[..|first + next| - 1] == first + init;
      RunConcat(s, first, init);
    }
  }

  /** Whatever happens after a shutdown, nothing more is flushed and nothing leaves the channel. */
  lemma {:induction false} StoppedStaysStopped(s: State, events: seq<Event>)
    requires !s.running
    ensures var t := Run(s, events);
            !t.running && t.batches == s.batches && t.flushed == s.flushed && s.channel <= t.channel
  {
    if events != [] {
      StoppedStaysStopped(s, events[..|events| - 1]);
    }
  }

  predicate NoSubmission(events: seq<Event>) {
    forall i :: 0 <= i < |events| ==> !events[i].Submit?
  }

  /** After a shutdown the channel is empty exactly if it was and has taken no submission since. */
  lemma {:induction false} StoppedChannel(s: State, events: seq<Event>)
    requires !s.running
    ensures var t := Run(s, events);
            && t.capacity == s.capacity && !t.running
            && (t.channel == [] <==> s.channel == [] && (s.capacity == 0 || NoSubmission(events)))
  {
    if events != [] {
      var init, last := events[..|events| - 1], events[|events| - 1];
      StoppedChannel(s, init);
      assert events == init + [last];
      assert NoSubmission(events) <==> NoSubmission(init) && !last.Submit?;
    }
  }

  /** Of a run with a shutdown, every submission is flushed, dropped, or stuck in the channel for good. So the
      two counters account for all submissions if and only if the channel was empty when the shutdown came,
      and, unless it has no room at all, nothing was submitted afterwards. */
  lemma ShutdownAccounts(capacity: nat, threshold: nat, before: seq<Event>, d: Delivery, later: seq<Event>)
    ensures var s := Run(Init(capacity, threshold), before);
            var t := Run(Init(capacity, threshold), before + [Shutdown(d)] + later);
            && |t.submitted| == t.flushed + t.dropped + |t.channel|
            && (|t.submitted| == t.flushed + t.dropped <==>
                  s.channel == [] && (capacity == 0 || NoSubmission(later)))
  {
    var s := Run(Init(capacity, threshold), before);
    RunKeepsLogs(capacity, threshold, before);
    RunConcat(Init(capacity, threshold), before + [Shutdown(d)], later);
    RunConcat(Init(capacity, threshold), before, [Shutdown(d)]);
    assert [Shutdown(d)][..0] == [];
    assert Run(s, [Shutdown(d)]) == Step(s, Shutdown(d));
    StoppedChannel(Step(s, Shutdown(d)), later);
    ShutdownStops(capacity, threshold, before + [Shutdown(d)], later);
  }

  lemma ShutdownStops(capacity: nat, threshold: nat, first: seq<Event>, later: seq<Event>)
    requires !Run(Init(capacity, threshold), first).running
    ensures var t := Run(Init(capacity, threshold), first + later);
            && !t.running && t.batch == [] && |t.submitted| == t.flushed + t.dropped + |t.channel|
  {
    RunConcat(Init(capacity, threshold), first, later);
    StoppedStaysStopped(Run(Init(capacity, threshold), first), later);
    RunKeepsLogs(capacity, threshold, first + later);
  }

  /** A log accepted just before the shutdown can be left behind. */
  lemma ShutdownLeavesLogs(log: DNSLog, threshold: nat, d: Delivery)
    ensures var s := Run(Init(1, threshold), [Submit(log, false, d), Shutdown(d)]);
            !s.running && s.channel == [log] && s.flushed == 0 && s.dropped == 0
  {
    var a, b := Submit(log, false, d), Shutdown(d);
    assert [a, b][..1] == [a] && [a][..0] == [];
    assert Run(Init(1, threshold), [a]) == Step(Init(1, threshold), a);
  }

  // ---------- what each event does ----------

  /** What has left the channel, in order: flushed or in the batch. */
  function Taken(s: State): seq<DNSLog> {
    Flat(s.batches) + s.batch
  }

  lemma SubmissionRecorded(s: State, log: DNSLog, waiting: bool, d: Delivery)
    ensures Step(s, Submit(log, waiting, d)).submitted == s.submitted + [log]
  {
  }

  /** A submission is dropped if and only if no worker waits for it and the channel is full; otherwise it is
      accepted, at the end. */
  lemma DroppedIffFull(s: State, log: DNSLog, waiting: bool, d: Delivery)
    ensures var t := Step(s, Submit(log, waiting, d));
            var full := |s.channel| >= s.capacity && !(waiting && s.running && s.channel == []);
            && (t.dropped == s.dropped + 1 <==> full) && (t.dropped == s.dropped <==> !full)
            && t.accepted == if full then s.accepted else s.accepted + [log]
  {
  }

  lemma FlushTakes(s: State, d: Delivery)
    ensures var t := Flush(s, d);
            && t.batch == [] && Taken(t) == Taken(s) && t.channel == s.channel && t.running == s.running
            && |t.batches| == |s.batches| + if s.batch == [] then 0 else 1
  {
    if s.batch != [] {
      FlatSnoc(s.batches, s.batch);
      assert Taken(s) + [] == Taken(s);
    }
  }

  /** A tick of a running worker, and its shutdown, flush all that has left the channel. */
  lemma TickFlushes(s: State, d: Delivery)
    requires s.running
    ensures var t := Step(s, Tick(d)); t.batch == [] && Flat(t.batches) == Taken(s) && t.running
    ensures var t := Step(s, Shutdown(d)); t.batch == [] && Flat(t.batches) == Taken(s) && !t.running
  {
    FlushTakes(s, d);
    assert Flat(Flush(s, d).batches) + [] == Flat(Flush(s, d).batches);
  }

  lemma AppendTakes(s: State, log: DNSLog, d: Delivery)
    ensures var t := Append(s, log, d);
            && Taken(t) == Taken(s) + [log] && t.channel == s.channel
            && (|s.batch| + 1 >= s.threshold ==> t.batch == [])
            && (|s.batch| + 1 < s.threshold ==> t.batches == s.batches)
  {
    FlushTakes(s.(batch := s.batch + [log]), d);
    assert Flat(s.batches) + (s.batch + [log]) == Flat(s.batches) + s.batch + [log];
  }

  /** A running worker takes the oldest log of the channel, and flushes exactly when that fills the batch. */
  lemma ConsumeTakesOldest(s: State, d: Delivery)
    requires s.running && s.channel != []
    ensures var t := Step(s, Consume(d));
            && Taken(t) == Taken(s) + [s.channel[0]] && [s.channel[0]] + t.channel == s.channel
            && (|s.batch| + 1 >= s.threshold <==> |t.batches| > |s.batches|)
            && (|s.batch| + 1 >= s.threshold ==> t.batch == [])
  {
    AppendTakes(s.(channel := s.channel[1..]), s.channel[0], d);
    FlushTakes(s.(channel := s.channel[1..], batch := s.batch + [s.channel[0]]), d);
  }

  // ---------- which rows are stored ----------

  predicate Increasing(at: seq<nat>) {
    forall i, j :: 0 <= i < j < |at| ==> at[i] < at[j]
  }

  /** These are the positions in the batch whose rows ClickHouse accepted, in increasing order. */
  predicate KeptPositions(at: seq<nat>, size: nat, kept: set<nat>) {
    && Increasing(at)
    && (forall j :: 0 <= j < |at| ==> at[j] < size && at[j] in kept)
    && (forall k :: 0 <= k < size && k in kept ==> k in at)
  }

  lemma KeptSnoc(at: seq<nat>, size: nat, kept: set<nat>)
    requires KeptPositions(at, size, kept)
    ensures KeptPositions(if size in kept then at + [size] else at, size + 1, kept)
  {
    var longer := if size in kept then at + [size] else at;
    forall k | 0 <= k < size + 1 && k in kept ensures k in longer {
      if k == size {
        assert longer[|at|] == k;
      } else {
        assert k in at;
      }
    }
  }

  lemma StoredSnoc(batch: seq<DNSLog>, kept: set<nat>)
    requires batch != []
    ensures var k := |batch| - 1;
            StoredOf(batch, Sent(kept)) == StoredOf(batch[..k], Sent(kept)) + if k in kept then [batch[k]] else []
  {
  }

  /** The rows are those at these positions. */
  predicate RowsAt(rows: seq<DNSLog>, batch: seq<DNSLog>, at: seq<nat>) {
    |rows| == |at| && forall j :: 0 <= j < |at| ==> at[j] < |batch| && rows[j] == batch[at[j]]
  }

  lemma RowsAtSnoc(rows: seq<DNSLog>, batch: seq<DNSLog>, at: seq<nat>)
    requires batch != [] && RowsAt(rows, batch[..|batch| - 1], at)
    ensures RowsAt(rows, batch, at) && RowsAt(rows + [batch[|batch| - 1]], batch, at + [|batch| - 1])
  {
  }

  /** A sent batch stores exactly the rows at the accepted positions, in the batch's order. */
  lemma {:induction false} StoredAreKept(batch: seq<DNSLog>, kept: set<nat>) returns (at: seq<nat>)
    ensures KeptPositions(at, |batch|, kept) && RowsAt(StoredOf(batch, Sent(kept)), batch, at)
  {
    if batch == [] {
      at := [];
    } else {
      var k := |batch| - 1;
      var init := StoredAreKept(batch[..k], kept);
      KeptSnoc(init, k, kept);
      StoredSnoc(batch, kept);
      RowsAtSnoc(StoredOf(batch[..k], Sent(kept)), batch, init);
      at := if k in kept then init + [k] else init;
    }
  }

  /** A batch that is not sent stores nothing. */
  lemma UnsentStoresNothing(batch: seq<DNSLog>, d: Delivery)
    requires !d.Sent?
    ensures StoredOf(batch, d) == []
  {
  }

  lemma {:induction false} AllKept(batch: seq<DNSLog>, kept: set<nat>)
    requires forall k: nat :: k < |batch| ==> k in kept
    ensures StoredOf(batch, Sent(kept)) == batch
  {
    if batch != [] {
      AllKept(batch[..|batch| - 1], kept);
    }
  }

  /** ClickHouse takes every row of every batch. */
  predicate Accepts(d: Delivery, size: nat) {
    d.Sent? && forall k: nat :: k < size ==> k in d.kept
  }

  predicate AllAccepted(events: seq<Event>, size: nat) {
    forall i :: 0 <= i < |events| ==> Accepts(events[i].d, size)
  }

  lemma FlushStores(s: State, d: Delivery)
    requires |s.batch| <= Limit(s.threshold) && Accepts(d, Limit(s.threshold))
    requires s.stored == Flat(s.batches) && s.unstored == 0 && s.metricDropped == 0
    ensures var t := Flush(s, d); t.stored == Flat(t.batches) && t.unstored == 0 && t.metricDropped == 0
  {
    if s.batch != [] {
      assert d == Sent(d.kept);
      AllKept(s.batch, d.kept);
      FlatSnoc(s.batches, s.batch);
      FlushParts(s, d, s.batch);
    }
  }

  lemma FlushParts(s: State, d: Delivery, rows: seq<DNSLog>)
    requires s.batch != [] && d.Sent? && StoredOf(s.batch, d) == rows && |rows| <= |s.batch|
    ensures var t := Flush(s, d);
            && t.batches == s.batches + [s.batch] && t.stored == s.stored + rows
            && t.unstored == s.unstored + (|s.batch| - |rows|) && t.metricDropped == s.metricDropped
  {
  }

  lemma AppendStores(s: State, log: DNSLog, d: Delivery)
    requires |s.batch| < Limit(s.threshold) && Accepts(d, Limit(s.threshold))
    requires s.stored == Flat(s.batches) && s.unstored == 0 && s.metricDropped == 0
    ensures var t := Append(s, log, d); t.stored == Flat(t.batches) && t.unstored == 0 && t.metricDropped == 0
  {
    FlushStores(s.(batch := s.batch + [log]), d);
  }

  lemma StepStores(s: State, e: Event)
    requires Bounded(s) && Accepts(e.d, Limit(s.threshold))
    requires s.stored == Flat(s.batches) && s.unstored == 0 && s.metricDropped == 0
    ensures var t := Step(s, e); t.stored == Flat(t.batches) && t.unstored == 0 && t.metricDropped == 0
  {
    match e {
      case Submit(log, waiting, d) =>
        SubmitCases(s, log, waiting, d);
        AppendStores(s.(submitted := s.submitted + [log], accepted := s.accepted + [log]), log, d);
      case Consume(d) =>
        if s.channel != [] {
          AppendStores(s.(channel := s.channel[1..]), s.channel[0], d);
        }
      case Tick(d) => FlushStores(s, d);
      case Shutdown(d) => FlushStores(s, d);
    }
  }

  /** In every run in which ClickHouse takes every row, all that is flushed is stored, in order, and nothing is
      counted as dropped on the way. */
  lemma {:induction false} AcceptedRunsStoreAll(capacity: nat, threshold: nat, events: seq<Event>)
    requires AllAccepted(events, Limit(threshold))
    ensures var s := Run(Init(capacity, threshold), events);
            s.stored == Flat(s.batches) && s.unstored == 0 && s.metricDropped == 0
  {
    if events != [] {
      var init := events[..|events| - 1];
      AcceptedRunsStoreAll(capacity, threshold, init);
      RunKeepsLogs(capacity, threshold, init);
      StepStores(Run(Init(capacity, threshold), init), events[|events| - 1]);
    }
  }

  /** A flush counts its batch as dropped if and only if ClickHouse refused to begin it or to send it. */
  lemma DroppedBatches(s: State, d: Delivery)
    ensures var t := Flush(s, d);
            && (d.PrepareFailed? || d.SendFailed? ==> t.metricDropped == s.metricDropped + |s.batch| && t.stored == s.stored)
            && (d.NotConfigured? ==> t.metricDropped == s.metricDropped && t.stored == s.stored)
            && (d.Sent? ==> t.metricDropped == s.metricDropped)
            && t.flushed == s.flushed + |s.batch|
  {
    assert s.stored + [] == s.stored;
  }

  // ---------- implementation ----------

  class LogAggregator {
    const capacity: nat
    const flushThreshold: nat
    var logCh: seq<DNSLog>
    var batch: seq<DNSLog>
    var droppedCount: nat
    var flushedCount: nat
    var metricDropped: nat
    var running: bool
    ghost var submitted: seq<DNSLog>
    ghost var accepted: seq<DNSLog>
    ghost var batches: seq<seq<DNSLog>>
    ghost var stored: seq<DNSLog>
    ghost var unstored: nat

    ghost function Now(): State
      reads this
    {
      State(logCh, capacity, batch, flushThreshold, running, flushedCount, droppedCount, metricDropped,
            submitted, accepted, batches, stored, unstored)
    }

    /** Created with its worker started. */
    constructor (bufferSize: nat, flushThreshold: nat)
      ensures Now() == Init(bufferSize, flushThreshold)
    {
      capacity, this.flushThreshold := bufferSize, flushThreshold;
      logCh, batch, running := [], [], true;
      droppedCount, flushedCount, metricDropped := 0, 0, 0;
      submitted, accepted, batches, stored, unstored := [], [], [], [], 0;
    }

    method FlushNow(d: Delivery)
      modifies this
      ensures Now() == Flush(old(Now()), d)
    {
      if |batch| == 0 {
        return;
      }
      var out := batch;
      batch := [];
      flushedCount := flushedCount + |out|;
      FlushBatch(out, d);
    }

    /** Appends row by row, skipping rows that fail; the whole batch is counted as dropped when ClickHouse
        refuses to begin it or to send it. */
    method FlushBatch(out: seq<DNSLog>, d: Delivery)
      modifies this`metricDropped, this`batches, this`stored, this`unstored
      ensures metricDropped == old(metricDropped) + if d.PrepareFailed? || d.SendFailed? then |out| else 0
      ensures batches == old(batches) + [out]
      ensures stored == old(stored) + StoredOf(out, d)
      ensures unstored == old(unstored) + (|out| - |StoredOf(out, d)|)
    {
      batches := batches + [out];
      if d.NotConfigured? || d.PrepareFailed? {
        metricDropped := metricDropped + if d.PrepareFailed? then |out| else 0;
        unstored := unstored + |out|;
        return;
      }
      var rows := [];
      for i := 0 to |out|
        invariant rows == Rows(out[..i], d.kept)
      {
        assert out[..i + 1][..i] == out[..i];
        if i in d.kept {
          rows := rows + [out[i]];
        }
      }
      assert out[..|out|] == out;
      RowsBound(out, d.kept);
      if d.SendFailed? {
        metricDropped := metricDropped + |out|;
        unstored := unstored + |out|;
        return;
      }
      stored := stored + rows;
      unstored := unstored + (|out| - |rows|);
    }

    /** Never blocks: a full channel drops the log. */
    method SubmitLog(log: DNSLog, waiting: bool, d: Delivery)
      modifies this
      ensures Now() == Step(old(Now()), Submit(log, waiting, d))
    {
      submitted := submitted + [log];
      if waiting && running && |logCh| == 0 {
        accepted := accepted + [log];
        Receive(log, d);
      } else if |logCh| < capacity {
        logCh := logCh + [log];
        accepted := accepted + [log];
      } else {
        droppedCount := droppedCount + 1;
      }
    }

    /** The worker's reaction to a log from the channel. */
    method Receive(log: DNSLog, d: Delivery)
      modifies this
      ensures Now() == Append(old(Now()), log, d)
    {
      batch := batch + [log];
      if |batch| >= flushThreshold {
        FlushNow(d);
      }
    }

    /** One turn of the worker's select, on a choice that is ready. */
    method Turn(e: Event)
      requires !e.Submit?
      modifies this
      ensures Now() == Step(old(Now()), e)
    {
      if !running {
        return;
      }
      match e {
        case Consume(d) =>
          if |logCh| > 0 {
            var log := logCh[0];
            logCh := logCh[1..];
            Receive(log, d);
          }
        case Tick(d) =>
          if |batch| > 0 {
            FlushNow(d);
          }
        case Shutdown(d) =>
          FlushNow(d);
          running := false;
      }
    }
  }
}
