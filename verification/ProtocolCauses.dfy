/**
 Why things happen in a run: which step of Submit decided on a caller, why a
 client stopped waiting, why a batch was closed before it was full, and what the
 outcome counters have counted. All of it over every schedule.
 */
module ProtocolCauses {
  import opened Protocol
  import opened ProtocolSafety

  // ---------- Verdicts of Submit ----------

  ghost predicate Has(s: State, r: Req, v: Verdict) {
    if v == Admitted then r in s.accepted
    else r in s.clients && (s.clients[r] == Deciding(v) || s.clients[r] == Rejected(v))
  }

  /**
   Step a, taken in state u, decides on caller r: it reads an open breaker, reads
   `stopped` under the lock, finds a full queue, or finds room in it.
   */
  ghost predicate Decides(u: State, r: Req, v: Verdict, a: Step) {
    r in u.clients &&
    match v
    case CircuitOpen => a == OfClient(r, CheckBreaker) && u.clients[r] == Arrived && u.breakerOpen
    case AfterStop => a == OfClient(r, CheckStopped) && u.clients[r] == Locked && u.stopped
    case QueueFull => a == OfClient(r, Enqueue) && u.clients[r] == Cleared && |u.queue| == 1000
    case Admitted => a == OfClient(r, Enqueue) && u.clients[r] == Cleared && |u.queue| < 1000
  }

  lemma VerdictElsewhere(u: State, a: Step, r: Req, v: Verdict)
    requires !(a.OfClient? && a.r == r)
    ensures Has(Do(u, a), r, v) <==> Has(u, r, v)
    ensures !Decides(u, r, v, a)
  {
  }

  lemma VerdictOwnStep(u: State, r: Req, c: ClientStep, v: Verdict)
    requires ClientEnabled(u, r, c) && |u.queue| <= 1000
    ensures Has(ClientDo(u, r, c), r, v) <==> Has(u, r, v) || Decides(u, r, v, OfClient(r, c))
  {
  }

  lemma VerdictStep(u: State, a: Step, r: Req, v: Verdict)
    requires SizeInv(u)
    ensures Has(Do(u, a), r, v) <==> Has(u, r, v) || Decides(u, r, v, a)
  {
    if !(a.OfClient? && a.r == r) {
      VerdictElsewhere(u, a, r, v);
    } else if ClientEnabled(u, r, a.c) {
      VerdictOwnStep(u, r, a.c, v);
    } else {
      assert !Decides(u, r, v, a);
    }
  }

  ghost predicate DecidedAt(maxBatch: int, run: seq<Step>, r: Req, v: Verdict, k: int) {
    0 <= k < |run| && Decides(Exec(Init(maxBatch), run[..k]), r, v, run[k])
  }

  /**
   Each verdict has its one cause and each cause its verdict, for the whole run: a
   caller is rejected for an open breaker exactly if it read it open, as stopped
   exactly if it read `stopped` set, for a full queue exactly if it found a
   thousand requests there, and accepted exactly if it found fewer.
   */
  lemma {:induction false} VerdictIff(maxBatch: int, run: seq<Step>, r: Req, v: Verdict)
    ensures Has(Exec(Init(maxBatch), run), r, v) <==> exists k :: DecidedAt(maxBatch, run, r, v, k)
    decreases |run|
  {
    if run != [] {
      var n := |run| - 1;
      var init := run[..n];
      VerdictIff(maxBatch, init, r, v);
      Reachable(maxBatch, init);
      VerdictStep(Exec(Init(maxBatch), init), run[n], r, v);
      forall k
        ensures DecidedAt(maxBatch, run, r, v, k) <==>
          DecidedAt(maxBatch, init, r, v, k) || (k == n && Decides(Exec(Init(maxBatch), init), r, v, run[n]))
      {
        if 0 <= k < n {
          assert init[..k] == run[..k];
        }
      }
      if Decides(Exec(Init(maxBatch), init), r, v, run[n]) {
        assert DecidedAt(maxBatch, run, r, v, n);
      }
    }
  }

  lemma RejectionIsFinalStep(s: State, a: Step, r: Req)
    requires r in s.clients && s.clients[r].Rejected?
    ensures r in Do(s, a).clients && Do(s, a).clients[r] == s.clients[r]
  {
  }

  lemma {:induction false} RejectionIsFinal(s: State, run: seq<Step>, r: Req)
    requires r in s.clients && s.clients[r].Rejected?
    ensures r in Exec(s, run).clients && Exec(s, run).clients[r] == s.clients[r]
    decreases |run|
  {
    if run != [] {
      RejectionIsFinal(s, run[..|run| - 1], r);
      RejectionIsFinalStep(Exec(s, run[..|run| - 1]), run[|run| - 1], r);
    }
  }

  /** Whoever reads the breaker while it is open is turned away for good, whatever follows. */
  lemma OpenBreakerRejects(maxBatch: int, before: seq<Step>, after: seq<Step>, r: Req)
    requires var u := Exec(Init(maxBatch), before); r in u.clients && u.clients[r] == Arrived && u.breakerOpen
    ensures var s := Exec(Init(maxBatch), before + [OfClient(r, CheckBreaker)] + after);
      r in s.clients && s.clients[r] == Rejected(CircuitOpen) && r !in s.accepted && Sends(s.sent, r) == 0
  {
    var run := before + [OfClient(r, CheckBreaker)];
    ExecMore(Init(maxBatch), before, OfClient(r, CheckBreaker));
    var t := Exec(Init(maxBatch), run);
    assert t.clients[r] == Rejected(CircuitOpen);
    RejectionIsFinal(t, after, r);
    ExecConcat(Init(maxBatch), run, after);
    ExactlyOnce(maxBatch, run + after, r);
  }

  // ---------- Breaker and contexts ----------

  ghost predicate OpenedLast(run: seq<Step>, k: int) {
    0 <= k < |run| && run[k] == Guard(true) && forall j :: k < j < |run| ==> run[j] != Guard(false)
  }

  /** The breaker stands as the guard last set it. */
  lemma {:induction false} BreakerFollowsGuard(maxBatch: int, run: seq<Step>)
    ensures Exec(Init(maxBatch), run).breakerOpen <==> exists k :: OpenedLast(run, k)
    decreases |run|
  {
    if run != [] {
      var n := |run| - 1;
      var init := run[..n];
      BreakerFollowsGuard(maxBatch, init);
      forall k
        ensures OpenedLast(run, k) <==>
          (run[n] == Guard(true) && k == n) || (run[n] != Guard(false) && OpenedLast(init, k))
      {
      }
      if run[n] == Guard(true) {
        assert OpenedLast(run, n);
      }
    }
  }

  ghost predicate CancelledAt(maxBatch: int, run: seq<Step>, r: Req, k: int) {
    0 <= k < |run| && run[k] == OfClient(r, Cancel) && r in Exec(Init(maxBatch), run[..k]).clients
  }

  lemma CancelStep(u: State, a: Step, r: Req)
    ensures r in Do(u, a).cancelled <==> r in u.cancelled || (a == OfClient(r, Cancel) && r in u.clients)
  {
  }

  /** A context has ended exactly if it was cancelled, at some time after the client came. */
  lemma {:induction false} CancelledIff(maxBatch: int, run: seq<Step>, r: Req)
    ensures r in Exec(Init(maxBatch), run).cancelled <==> exists k :: CancelledAt(maxBatch, run, r, k)
    decreases |run|
  {
    if run != [] {
      var n := |run| - 1;
      var init := run[..n];
      CancelledIff(maxBatch, init, r);
      CancelStep(Exec(Init(maxBatch), init), run[n], r);
      forall k
        ensures CancelledAt(maxBatch, run, r, k) <==>
          || CancelledAt(maxBatch, init, r, k)
          || (k == n && run[n] == OfClient(r, Cancel) && r in Exec(Init(maxBatch), init).clients)
      {
        if 0 <= k < n {
          assert init[..k] == run[..k];
        }
      }
      if run[n] == OfClient(r, Cancel) && r in Exec(Init(maxBatch), init).clients {
        assert CancelledAt(maxBatch, run, r, n);
      }
    }
  }

  // ---------- The end of a wait ----------

  /** Step a, taken in state u, ends r's wait: with its result, or because its context has ended. */
  ghost predicate EndsWait(u: State, r: Req, left: bool, a: Step) {
    && r in u.clients && u.clients[r] == Waiting
    && if left then a == OfClient(r, Leave) && r in u.cancelled else a == OfClient(r, Receive) && Sends(u.sent, r) > 0
  }

  ghost predicate Ended(s: State, r: Req, left: bool) {
    r in s.clients && s.clients[r] == if left then Left else Received
  }

  lemma EndStep(u: State, a: Step, r: Req, left: bool)
    ensures Ended(Do(u, a), r, left) <==> Ended(u, r, left) || EndsWait(u, r, left, a)
  {
  }

  ghost predicate EndedAt(maxBatch: int, run: seq<Step>, r: Req, left: bool, k: int) {
    0 <= k < |run| && EndsWait(Exec(Init(maxBatch), run[..k]), r, left, run[k])
  }

  /**
   A client has left exactly if it chose to while its context had ended, and has
   received exactly if it took a result that had been sent to it.
   */
  lemma {:induction false} WaitEndIff(maxBatch: int, run: seq<Step>, r: Req, left: bool)
    ensures Ended(Exec(Init(maxBatch), run), r, left) <==> exists k :: EndedAt(maxBatch, run, r, left, k)
    decreases |run|
  {
    if run != [] {
      var n := |run| - 1;
      var init := run[..n];
      WaitEndIff(maxBatch, init, r, left);
      EndStep(Exec(Init(maxBatch), init), run[n], r, left);
      forall k
        ensures EndedAt(maxBatch, run, r, left, k) <==>
          EndedAt(maxBatch, init, r, left, k) || (k == n && EndsWait(Exec(Init(maxBatch), init), r, left, run[n]))
      {
        if 0 <= k < n {
          assert init[..k] == run[..k];
        }
      }
      if EndsWait(Exec(Init(maxBatch), init), r, left, run[n]) {
        assert EndedAt(maxBatch, run, r, left, n);
      }
    }
  }

  // ---------- Batches that are not full ----------

  /** Step a closes the collection window on this batch: the deadline passed or stopCh was closed. */
  ghost predicate ClosesWindow(u: State, batch: seq<Req>, a: Step) {
    u.main == Collecting(batch) && (a == OfMain(Deadline) || (a == OfMain(SeeStop) && u.closed))
  }

  ghost predicate WindowClosed(maxBatch: int, run: seq<Step>, batch: seq<Req>) {
    exists k :: 0 <= k < |run| && ClosesWindow(Exec(Init(maxBatch), run[..k]), batch, run[k])
  }

  ghost predicate FullOrClosed(maxBatch: int, run: seq<Step>, batch: seq<Req>) {
    |batch| >= maxBatch || WindowClosed(maxBatch, run, batch)
  }

  lemma FullOrClosedStays(maxBatch: int, init: seq<Step>, a: Step, batch: seq<Req>)
    requires FullOrClosed(maxBatch, init, batch)
    ensures FullOrClosed(maxBatch, init + [a], batch)
  {
    if |batch| < maxBatch {
      var k :| 0 <= k < |init| && ClosesWindow(Exec(Init(maxBatch), init[..k]), batch, init[k]);
      assert (init + [a])[..k] == init[..k] && (init + [a])[k] == init[k];
    }
  }

  lemma ClosingCloses(maxBatch: int, init: seq<Step>, a: Step, batch: seq<Req>)
    requires ClosesWindow(Exec(Init(maxBatch), init), batch, a)
    ensures FullOrClosed(maxBatch, init + [a], batch)
  {
    assert (init + [a])[..|init|] == init && (init + [a])[|init|] == a;
  }

  ghost predicate BatchesClosed(maxBatch: int, run: seq<Step>, s: State) {
    && (s.main.Collected? ==> FullOrClosed(maxBatch, run, s.main.batch))
    && (forall i :: 0 <= i < |s.flushes| ==> FullOrClosed(maxBatch, run, s.flushes[i].batch))
  }

  /** Where batches come from in one step. */
  lemma BatchOrigin(u: State, a: Step)
    ensures var t := Do(u, a);
      && (t.main.Collected? ==>
            || (u.main.Collected? && u.main.batch == t.main.batch)
            || |t.main.batch| >= u.maxBatch
            || ClosesWindow(u, t.main.batch, a))
      && (forall i :: 0 <= i < |t.flushes| ==>
            || (i < |u.flushes| && u.flushes[i].batch == t.flushes[i].batch)
            || (u.main.Collected? && u.main.batch == t.flushes[i].batch))
  {
  }

  /** A batch smaller than MaxBatchSize was closed by the deadline or by the close of stopCh, never earlier. */
  lemma {:induction false} SmallBatchesWereClosed(maxBatch: int, run: seq<Step>)
    ensures BatchesClosed(maxBatch, run, Exec(Init(maxBatch), run))
    decreases |run|
  {
    if run != [] {
      var init, a := run[..|run| - 1], run[|run| - 1];
      var u, t := Exec(Init(maxBatch), init), Exec(Init(maxBatch), run);
      assert run == init + [a];
      SmallBatchesWereClosed(maxBatch, init);
      MaxBatchFixed(Init(maxBatch), init);
      BatchOrigin(u, a);
      if u.main.Collected? {
        FullOrClosedStays(maxBatch, init, a, u.main.batch);
      }
      if t.main.Collected? && ClosesWindow(u, t.main.batch, a) {
        ClosingCloses(maxBatch, init, a, t.main.batch);
      }
      forall i | 0 <= i < |u.flushes|
        ensures FullOrClosed(maxBatch, run, u.flushes[i].batch)
      {
        FullOrClosedStays(maxBatch, init, a, u.flushes[i].batch);
      }
    }
  }

  // ---------- What the counters count ----------

  predicate Succeeded(d: Delivery) {
    d.outcome == Answer(true)
  }

  function Winners(sent: seq<Delivery>): set<nat> {
    set j: nat | j < |sent| && Succeeded(sent[j])
  }

  lemma WinnersSnoc(sent: seq<Delivery>, d: Delivery)
    ensures |Winners(sent + [d])| == |Winners(sent)| + if Succeeded(d) then 1 else 0
  {
    assert Winners(sent + [d]) == Winners(sent) + if Succeeded(d) then {|sent|} else {};
  }

  /** One more delivery, counted on its side, or neither. */
  ghost predicate CountsOne(s: State, t: State) {
    || (t.sent == s.sent && t.stats.success == s.stats.success && t.stats.errors == s.stats.errors)
    || exists d :: && t.sent == s.sent + [d]
         && t.stats.success == s.stats.success + (if Succeeded(d) then 1 else 0)
         && t.stats.errors == s.stats.errors + (if Succeeded(d) then 0 else 1)
  }

  lemma MainCountsOne(s: State, m: MainStep)
    requires MainEnabled(s, m)
    ensures CountsOne(s, MainDo(s, m))
  {
    if m == DrainSend {
      assert MainDo(s, m).sent == s.sent + [Delivery(s.main.req, DrainError)];
    }
  }

  lemma FlushCountsOne(s: State, i: nat, f: FlushStep)
    requires FlushEnabled(s, i, f)
    ensures CountsOne(s, FlushDo(s, i, f))
  {
    if Outgoing(s, i, f) == [] {
      assert s.sent + [] == s.sent;
    } else {
      assert Outgoing(s, i, f) == [Outgoing(s, i, f)[0]];
      assert FlushDo(s, i, f).sent == s.sent + [Outgoing(s, i, f)[0]];
    }
  }

  lemma CountedStep(s: State, a: Step)
    ensures CountsOne(s, Do(s, a))
  {
    if Enabled(s, a) {
      match a
      case OfMain(m) => MainCountsOne(s, m);
      case OfFlush(i, f) => FlushCountsOne(s, i, f);
      case _ =>
    }
  }

  /** At every moment the counters are the numbers of successes and of errors sent, drain errors being errors. */
  lemma {:induction false} CountersCountOutcomes(maxBatch: int, run: seq<Step>)
    ensures var s := Exec(Init(maxBatch), run);
      && s.stats.success == |set j: nat | j < |s.sent| && s.sent[j].outcome == Answer(true)|
      && s.stats.success + s.stats.errors == |s.sent|
    decreases |run|
  {
    var s := Exec(Init(maxBatch), run);
    CountReachable(maxBatch, run);
    assert Winners(s.sent) == set j: nat | j < |s.sent| && s.sent[j].outcome == Answer(true);
    if run == [] {
      assert Winners([]) == {};
    } else {
      var u := Exec(Init(maxBatch), run[..|run| - 1]);
      CountersCountOutcomes(maxBatch, run[..|run| - 1]);
      assert Winners(u.sent) == set j: nat | j < |u.sent| && u.sent[j].outcome == Answer(true);
      CountedStep(u, run[|run| - 1]);
      if s.sent != u.sent {
        var d := s.sent[|s.sent| - 1];
        assert s.sent == u.sent + [d];
        WinnersSnoc(u.sent, d);
      }
    }
  }
}
