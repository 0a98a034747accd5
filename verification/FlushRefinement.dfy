/**
 The two levels of the batcher fit together: whatever a single flush delivers by
 the model of `Fanout` is what some schedule of that flush's protocol steps
 delivers, with the same outcome counts.
 */
module FlushRefinement {
  import opened Protocol
  import opened ProtocolSafety
  import F = Fanout

  /** The live requests among the first n of a batch. */
  function LiveReqs(batch: seq<Req>, ctxErr: seq<F.Option<string>>, n: nat): seq<Req>
    requires n <= |batch| == |ctxErr|
  {
    if n == 0 then [] else LiveReqs(batch, ctxErr, n - 1) + if ctxErr[n - 1].None? then [batch[n - 1]] else []
  }

  /** What filtering sends for the first n of a batch. */
  function DropLog(batch: seq<Req>, ctxErr: seq<F.Option<string>>, n: nat): seq<Delivery>
    requires n <= |batch| == |ctxErr|
  {
    if n == 0 then []
    else DropLog(batch, ctxErr, n - 1) + if ctxErr[n - 1].Some? then [Delivery(batch[n - 1], ContextError)] else []
  }

  /** What fan-out sends for the first n live requests. */
  function AnswerLog(live: seq<Req>, answers: seq<F.Result>, n: nat): seq<Delivery>
    requires n <= |live| == |answers|
  {
    if n == 0 then [] else AnswerLog(live, answers, n - 1) + [Delivery(live[n - 1], Answer(answers[n - 1].Success?))]
  }

  /** The steps so far are steps of flush i and have led from s to t. */
  ghost predicate Flushes(s: State, i: nat, run: seq<Step>, t: State) {
    && (forall k :: 0 <= k < |run| ==> run[k].OfFlush? && run[k].i == i)
    && t == Exec(s, run) && t.cancelled == s.cancelled && |t.flushes| == |s.flushes|
  }

  lemma OneStep(s: State, i: nat, run: seq<Step>, t: State, f: FlushStep) returns (run': seq<Step>, t': State)
    requires Flushes(s, i, run, t) && FlushEnabled(t, i, f)
    ensures t' == FlushDo(t, i, f) && Flushes(s, i, run', t')
  {
    run', t' := run + [OfFlush(i, f)], FlushDo(t, i, f);
    assert run'[..|run|] == run;
    assert t' == Do(t, OfFlush(i, f));
    FlushFrame(t, i, f);
  }

  lemma JoinRuns(s: State, i: nat, run1: seq<Step>, t: State, run2: seq<Step>, u: State)
    requires Flushes(s, i, run1, t) && Flushes(t, i, run2, u)
    ensures Flushes(s, i, run1 + run2, u)
  {
    ExecConcat(s, run1, run2);
  }

  ghost predicate SameContexts(s: State, batch: seq<Req>, ctxErr: seq<F.Option<string>>) {
    |batch| == |ctxErr| && forall j :: 0 <= j < |batch| ==> (batch[j] in s.cancelled <==> ctxErr[j].Some?)
  }

  /** The flush has filtered the first n requests. */
  ghost predicate Filtered(s: State, t: State, i: nat, batch: seq<Req>, ctxErr: seq<F.Option<string>>, n: nat)
    requires n <= |batch| == |ctxErr|
  {
    && i < |t.flushes|
    && t.flushes[i].phase == Filtering(batch[n..], LiveReqs(batch, ctxErr, n))
    && t.sent == s.sent + DropLog(batch, ctxErr, n)
    && t.stats.success == s.stats.success
    && t.stats.errors + |LiveReqs(batch, ctxErr, n)| == s.stats.errors + n
    && t.stats.cancelledAtFlush + |LiveReqs(batch, ctxErr, n)| == s.stats.cancelledAtFlush + n
    && t.stats.batchSum == s.stats.batchSum && t.stats.unobserved == s.stats.unobserved
  }

  lemma PendingOfPhase(s: State, i: nat, xs: seq<Req>, k: nat)
    requires Inv(s) && i < |s.flushes| && k < |xs|
    requires PhasePending(s.flushes[i].phase, xs[k]) >= Occurrences(xs, xs[k])
    ensures SlotFree(s, xs[k])
  {
    WithoutOne(xs, k, xs[k]);
    PendingInFlush(s.flushes, i, xs[k]);
    PendingSlotIsFree(s, xs[k]);
  }

  lemma KeepOne(s: State, t: State, i: nat, batch: seq<Req>, ctxErr: seq<F.Option<string>>, n: nat)
    requires n < |batch| && SameContexts(t, batch, ctxErr) && ctxErr[n].None?
    requires Filtered(s, t, i, batch, ctxErr, n)
    ensures FlushEnabled(t, i, Check) && Filtered(s, FlushDo(t, i, Check), i, batch, ctxErr, n + 1)
  {
    var todo := batch[n..];
    assert todo[0] == batch[n] && todo[1..] == batch[n + 1..];
    assert t.sent + [] == t.sent;
  }

  /** The flush has seen the context of request n ended, but has not told it yet. */
  ghost predicate AboutToDrop(t: State, u: State, i: nat, batch: seq<Req>, ctxErr: seq<F.Option<string>>, n: nat)
    requires n < |batch| == |ctxErr|
  {
    && i < |u.flushes| && u.flushes[i].phase == Dropping(batch[n..], LiveReqs(batch, ctxErr, n))
    && u.sent == t.sent && u.stats == t.stats
  }

  lemma SeeEnded(s: State, t: State, i: nat, batch: seq<Req>, ctxErr: seq<F.Option<string>>, n: nat)
    requires n < |batch| && SameContexts(t, batch, ctxErr) && ctxErr[n].Some?
    requires Filtered(s, t, i, batch, ctxErr, n)
    ensures FlushEnabled(t, i, Check) && AboutToDrop(t, FlushDo(t, i, Check), i, batch, ctxErr, n)
  {
    assert batch[n..][0] == batch[n];
    assert t.sent + [] == t.sent;
  }

  lemma DropOne(s: State, t: State, u: State, i: nat, batch: seq<Req>, ctxErr: seq<F.Option<string>>, n: nat)
    requires n < |batch| == |ctxErr| && ctxErr[n].Some? && Inv(u)
    requires Filtered(s, t, i, batch, ctxErr, n) && AboutToDrop(t, u, i, batch, ctxErr, n)
    ensures FlushEnabled(u, i, Drop) && Filtered(s, FlushDo(u, i, Drop), i, batch, ctxErr, n + 1)
  {
    var todo := batch[n..];
    assert todo[0] == batch[n] && todo[1..] == batch[n + 1..];
    PendingOfPhase(u, i, todo, 0);
  }

  /** One more request is looked at, and if its context has ended, told so. */
  lemma FilterOne(s: State, run: seq<Step>, t: State, i: nat, batch: seq<Req>, ctxErr: seq<F.Option<string>>, n: nat)
    returns (run': seq<Step>, t': State)
    requires Inv(s) && n < |batch| && SameContexts(s, batch, ctxErr)
    requires Flushes(s, i, run, t) && Filtered(s, t, i, batch, ctxErr, n)
    ensures Flushes(s, i, run', t') && Filtered(s, t', i, batch, ctxErr, n + 1)
  {
    if ctxErr[n].None? {
      KeepOne(s, t, i, batch, ctxErr, n);
      run', t' := OneStep(s, i, run, t, Check);
    } else {
      SeeEnded(s, t, i, batch, ctxErr, n);
      var run1, u := OneStep(s, i, run, t, Check);
      InvStays(s, run1);
      DropOne(s, t, u, i, batch, ctxErr, n);
      run', t' := OneStep(s, i, run1, u, Drop);
    }
  }

  lemma {:induction false} FilterPrefix(s: State, i: nat, batch: seq<Req>, ctxErr: seq<F.Option<string>>, n: nat)
    returns (run: seq<Step>, t: State)
    requires Inv(s) && i < |s.flushes| && n <= |batch| && SameContexts(s, batch, ctxErr)
    requires s.flushes[i].phase == Filtering(batch, [])
    ensures Flushes(s, i, run, t) && Filtered(s, t, i, batch, ctxErr, n)
  {
    if n == 0 {
      run, t := [], s;
      assert batch[0..] == batch && s.sent + [] == s.sent;
    } else {
      var run0, t0 := FilterPrefix(s, i, batch, ctxErr, n - 1);
      run, t := FilterOne(s, run0, t0, i, batch, ctxErr, n - 1);
    }
  }

  function Successes(answers: seq<F.Result>, n: nat): nat
    requires n <= |answers|
  {
    if n == 0 then 0 else Successes(answers, n - 1) + if answers[n - 1].Success? then 1 else 0
  }

  /** The flush has answered the first n live requests. */
  ghost predicate Answered(s: State, t: State, i: nat, live: seq<Req>, answers: seq<F.Result>, onlyErrors: bool, n: nat)
    requires n <= |live| == |answers|
  {
    && i < |t.flushes|
    && t.flushes[i].phase == (if n < |live| then FanningOut(live[n..], onlyErrors) else Finished)
    && t.sent == s.sent + AnswerLog(live, answers, n)
    && t.stats.success == s.stats.success + Successes(answers, n)
    && t.stats.errors + Successes(answers, n) == s.stats.errors + n
    && SameSizes(s.stats, t.stats)
  }

  predicate SameSizes(a: Stats, b: Stats) {
    b.cancelledAtFlush == a.cancelledAtFlush && b.batchSum == a.batchSum && b.unobserved == a.unobserved
  }

  lemma AnswerOne(s: State, t: State, i: nat, live: seq<Req>, answers: seq<F.Result>, onlyErrors: bool, n: nat)
    requires n < |live| == |answers| && Inv(t) && Answered(s, t, i, live, answers, onlyErrors, n)
    requires onlyErrors ==> answers[n].Error?
    ensures FlushEnabled(t, i, Send(0, answers[n].Success?))
    ensures Answered(s, FlushDo(t, i, Send(0, answers[n].Success?)), i, live, answers, onlyErrors, n + 1)
  {
    var rest := live[n..];
    assert rest[0] == live[n] && Without(rest, 0) == live[n + 1..];
    PendingOfPhase(t, i, rest, 0);
  }

  lemma {:induction false} AnswerPrefix(s: State, i: nat, live: seq<Req>, answers: seq<F.Result>,
                                        onlyErrors: bool, n: nat)
    returns (run: seq<Step>, t: State)
    requires Inv(s) && i < |s.flushes| && n <= |live| == |answers| && live != []
    requires onlyErrors ==> forall a :: 0 <= a < |answers| ==> answers[a].Error?
    requires s.flushes[i].phase == FanningOut(live, onlyErrors)
    ensures Flushes(s, i, run, t) && Answered(s, t, i, live, answers, onlyErrors, n)
  {
    if n == 0 {
      run, t := [], s;
      assert live[0..] == live && s.sent + [] == s.sent;
    } else {
      var run0, t0 := AnswerPrefix(s, i, live, answers, onlyErrors, n - 1);
      InvStays(s, run0);
      AnswerOne(s, t0, i, live, answers, onlyErrors, n - 1);
      run, t := OneStep(s, i, run0, t0, Send(0, answers[n - 1].Success?));
    }
  }

  // ---------- The exchange as a step ----------

  /** Payload and HTTP request are built before the call: if that fails no batch size is observed. */
  function ExchangeStep(exchange: F.Exchange): FlushStep {
    if exchange.MarshalFailed? || exchange.RequestNotBuilt? then EncodeFails
    else CallReturns(F.WholeBatchFails(exchange))
  }

  function SumOf(sizes: seq<nat>): nat {
    if sizes == [] then 0 else sizes[0] + SumOf(sizes[1..])
  }

  /** Sizes are observed, or booked as unobserved, as the exchange demands. */
  predicate SizesGrow(a: Stats, b: Stats, exchange: F.Exchange, n: nat) {
    && b.batchSum == a.batchSum + SumOf(F.Reached(exchange, n))
    && b.unobserved + SumOf(F.Reached(exchange, n)) == a.unobserved + n
    && b.cancelledAtFlush == a.cancelledAtFlush
  }

  lemma FailedBatchHasNoSuccess(items: seq<F.Item>, exchange: F.Exchange, latencyMs: int)
    requires F.WholeBatchFails(exchange)
    ensures forall a :: 0 <= a < |items| ==> F.Resolve(items, exchange, latencyMs)[a].Error?
  {
  }

  lemma ExchangeHappens(s: State, i: nat, live: seq<Req>, exchange: F.Exchange) returns (run: seq<Step>, t: State)
    requires i < |s.flushes| && live != [] && s.flushes[i].phase == Calling(live)
    ensures Flushes(s, i, run, t)
    ensures t.flushes[i].phase == FanningOut(live, F.WholeBatchFails(exchange)) && t.sent == s.sent
    ensures t.stats.success == s.stats.success && t.stats.errors == s.stats.errors
    ensures SizesGrow(s.stats, t.stats, exchange, |live|)
  {
    run, t := OneStep(s, i, [], s, ExchangeStep(exchange));
    assert t.sent == s.sent;
    assert SumOf([|live|]) == |live| + SumOf([]);
  }

  /** From s to t every live request was given its answer, and the sizes booked, given the exchange. */
  ghost predicate CalledAndAnswered(s: State, t: State, live: seq<Req>, payload: seq<F.Item>, exchange: F.Exchange,
                                    latencyMs: int)
    requires |live| == |payload|
  {
    var answers := F.Resolve(payload, exchange, latencyMs);
    && t.sent == s.sent + AnswerLog(live, answers, |live|)
    && t.stats.success == s.stats.success + Successes(answers, |live|)
    && t.stats.errors + Successes(answers, |live|) == s.stats.errors + |live|
    && (live == [] ==> SameSizes(s.stats, t.stats))
    && (live != [] ==> SizesGrow(s.stats, t.stats, exchange, |live|))
  }

  /** Call the backend, if anyone is live, and fan its answers out. */
  lemma CallAndAnswer(s: State, i: nat, live: seq<Req>, payload: seq<F.Item>, exchange: F.Exchange, latencyMs: int)
    returns (run: seq<Step>, t: State)
    requires Inv(s) && i < |s.flushes| && |live| == |payload|
    requires s.flushes[i].phase == Filtering([], live)
    ensures Flushes(s, i, run, t) && t.flushes[i].phase == Finished
    ensures CalledAndAnswered(s, t, live, payload, exchange, latencyMs)
  {
    var answers := F.Resolve(payload, exchange, latencyMs);
    run, t := OneStep(s, i, [], s, Call);
    assert t.sent == s.sent;
    if live != [] {
      var run1, t1 := ExchangeHappens(t, i, live, exchange);
      if F.WholeBatchFails(exchange) {
        FailedBatchHasNoSuccess(payload, exchange, latencyMs);
      }
      JoinRuns(s, i, run, t, run1, t1);
      InvStays(s, run + run1);
      var run2, t2 := AnswerPrefix(t1, i, live, answers, F.WholeBatchFails(exchange), |live|);
      JoinRuns(s, i, run + run1, t1, run2, t2);
      run, t := run + run1 + run2, t2;
    }
  }

  lemma {:induction false} LiveReqsAreLive(batch: seq<Req>, ctxErr: seq<F.Option<string>>, n: nat)
    requires n <= |batch| == |ctxErr|
    ensures |LiveReqs(batch, ctxErr, n)| == |F.Live(ctxErr[..n])|
    ensures forall j :: 0 <= j < n && ctxErr[j].None? ==>
      var a := |F.Live(ctxErr[..j])|;
      a < |LiveReqs(batch, ctxErr, n)| && LiveReqs(batch, ctxErr, n)[a] == batch[j]
  {
    if n > 0 {
      assert ctxErr[..n][..n - 1] == ctxErr[..n - 1];
      LiveReqsAreLive(batch, ctxErr, n - 1);
    }
  }

  lemma {:induction false} DropLogHas(batch: seq<Req>, ctxErr: seq<F.Option<string>>, n: nat, j: nat)
    requires j < n <= |batch| == |ctxErr| && ctxErr[j].Some?
    ensures Delivery(batch[j], ContextError) in DropLog(batch, ctxErr, n)
  {
    if j < n - 1 {
      DropLogHas(batch, ctxErr, n - 1, j);
    }
  }

  lemma {:induction false} AnswerLogHas(live: seq<Req>, answers: seq<F.Result>, n: nat, a: nat)
    requires a < n <= |live| == |answers|
    ensures Delivery(live[a], Answer(answers[a].Success?)) in AnswerLog(live, answers, n)
  {
    if a < n - 1 {
      AnswerLogHas(live, answers, n - 1, a);
    }
  }

  lemma {:induction false} LogLengths(batch: seq<Req>, ctxErr: seq<F.Option<string>>, n: nat)
    requires n <= |batch| == |ctxErr|
    ensures |DropLog(batch, ctxErr, n)| + |LiveReqs(batch, ctxErr, n)| == n
  {
    if n > 0 {
      LogLengths(batch, ctxErr, n - 1);
    }
  }

  lemma {:induction false} AnswerLogLength(live: seq<Req>, answers: seq<F.Result>, n: nat)
    requires n <= |live| == |answers|
    ensures |AnswerLog(live, answers, n)| == n
  {
    if n > 0 {
      AnswerLogLength(live, answers, n - 1);
    }
  }

  /** A result as the protocol sees it. */
  function Seen(r: F.Result): Outcome {
    if r.Error? && r.failure.ContextDone? then ContextError else Answer(r.Success?)
  }

  lemma ResolveNeverCancels(items: seq<F.Item>, exchange: F.Exchange, latencyMs: int)
    ensures forall r :: r in F.Resolve(items, exchange, latencyMs) ==> Seen(r) == Answer(r.Success?)
  {
  }

  lemma DeliveredAsModelled(batch: seq<Req>, items: seq<F.Item>, ctxErr: seq<F.Option<string>>, backend: F.Backend,
                            latencyMs: int, j: nat)
    requires j < |batch| == |items| == |ctxErr|
    requires |LiveReqs(batch, ctxErr, |ctxErr|)| == |F.Answers(items, ctxErr, backend, latencyMs)|
    ensures var answers, live := F.Answers(items, ctxErr, backend, latencyMs), LiveReqs(batch, ctxErr, |ctxErr|);
      Delivery(batch[j], Seen(F.FlushOutcome(items, ctxErr, backend, latencyMs)[j]))
        in DropLog(batch, ctxErr, |ctxErr|) + AnswerLog(live, answers, |live|)
  {
    var payload, n := F.Payload(items, ctxErr), |ctxErr|;
    var answers := F.Answers(items, ctxErr, backend, latencyMs);
    if ctxErr[j].Some? {
      DropLogHas(batch, ctxErr, n, j);
    } else {
      var a := |F.Live(ctxErr[..j])|;
      F.LiveRank(ctxErr, j);
      LiveReqsAreLive(batch, ctxErr, n);
      ResolveNeverCancels(payload, backend(payload), latencyMs);
      assert answers[a] in answers;
      AnswerLogHas(LiveReqs(batch, ctxErr, n), answers, |answers|, a);
    }
  }

  lemma {:induction false} SuccessesAreWins(answers: seq<F.Result>, n: nat)
    requires n <= |answers|
    ensures Successes(answers, n) == F.Wins(F.AllSent(answers[..n]))
  {
    if n > 0 {
      SuccessesAreWins(answers, n - 1);
      assert F.AllSent(answers[..n]) == F.AllSent(answers[..n - 1]) + [F.Some(answers[n - 1])];
      F.CountsSnoc(F.AllSent(answers[..n - 1]), F.Some(answers[n - 1]));
    }
  }

  /** How the counters move over a whole flush of n requests. */
  ghost predicate CountsAsModelled(a: Stats, b: Stats, items: seq<F.Item>, ctxErr: seq<F.Option<string>>,
                                   backend: F.Backend, latencyMs: int)
    requires |items| == |ctxErr|
  {
    var payload := F.Payload(items, ctxErr);
    var wins := F.Wins(F.AllSent(F.Answers(items, ctxErr, backend, latencyMs)));
    var observed := SumOf(F.Observed(payload, backend));
    && b.success == a.success + wins
    && b.errors + wins == a.errors + |items|
    && b.batchSum == a.batchSum + observed
    && b.unobserved + observed == a.unobserved + |payload|
    && b.cancelledAtFlush + |payload| == a.cancelledAtFlush + |items|
  }

  lemma SentAddsUp(s: State, t1: State, t: State, i: nat, batch: seq<Req>, ctxErr: seq<F.Option<string>>,
                   answered: seq<Delivery>)
    requires |batch| == |ctxErr| && Filtered(s, t1, i, batch, ctxErr, |ctxErr|) && t.sent == t1.sent + answered
    ensures t.sent == s.sent + (DropLog(batch, ctxErr, |ctxErr|) + answered)
  {
  }

  /** What filtering counts and what the answers add make up the counts of the whole flush. */
  lemma CountsAddUp(s: State, t1: State, t: State, i: nat, batch: seq<Req>, live: seq<Req>, items: seq<F.Item>,
                    ctxErr: seq<F.Option<string>>, backend: F.Backend, latencyMs: int)
    requires |items| == |ctxErr| == |batch| && Filtered(s, t1, i, batch, ctxErr, |ctxErr|)
    requires live == LiveReqs(batch, ctxErr, |ctxErr|) && |live| == |F.Payload(items, ctxErr)|
    requires CalledAndAnswered(t1, t, live, F.Payload(items, ctxErr), backend(F.Payload(items, ctxErr)), latencyMs)
    ensures CountsAsModelled(s.stats, t.stats, items, ctxErr, backend, latencyMs)
  {
    var answers := F.Answers(items, ctxErr, backend, latencyMs);
    SuccessesAreWins(answers, |answers|);
    assert answers[..|answers|] == answers;
  }

  /** Filter everyone. */
  lemma FilterAll(s: State, i: nat, items: seq<F.Item>, ctxErr: seq<F.Option<string>>)
    returns (run: seq<Step>, t: State, live: seq<Req>)
    requires Inv(s) && i < |s.flushes| && s.flushes[i].phase == Filtering(s.flushes[i].batch, [])
    requires |items| == |s.flushes[i].batch| && SameContexts(s, s.flushes[i].batch, ctxErr)
    ensures live == LiveReqs(s.flushes[i].batch, ctxErr, |ctxErr|) && |live| == |F.Payload(items, ctxErr)|
    ensures Flushes(s, i, run, t) && Filtered(s, t, i, s.flushes[i].batch, ctxErr, |ctxErr|)
    ensures t.flushes[i].phase == Filtering([], live)
  {
    var batch := s.flushes[i].batch;
    live := LiveReqs(batch, ctxErr, |batch|);
    assert ctxErr[..|batch|] == ctxErr && batch[|batch|..] == [];
    LiveReqsAreLive(batch, ctxErr, |batch|);
    run, t := FilterPrefix(s, i, batch, ctxErr, |batch|);
  }

  /**
   From any reachable state with a freshly spawned flush, some schedule of that
   flush alone finishes it, sending exactly one result per request, to each the
   one the single-flush model assigns, and counting as that model counts: outcomes,
   batch size, requests without an observed size, cancelled requests.
   */
  lemma SingleFlushIsASchedule(s: State, i: nat, items: seq<F.Item>, ctxErr: seq<F.Option<string>>,
                               backend: F.Backend, latencyMs: int)
    returns (run: seq<Step>, t: State, news: seq<Delivery>)
    requires Inv(s) && i < |s.flushes| && s.flushes[i].phase == Filtering(s.flushes[i].batch, [])
    requires |items| == |s.flushes[i].batch| && SameContexts(s, s.flushes[i].batch, ctxErr)
    ensures Flushes(s, i, run, t) && t.flushes[i].phase == Finished
    ensures t.sent == s.sent + news && |news| == |items|
    ensures forall j :: 0 <= j < |items| ==>
      Delivery(s.flushes[i].batch[j], Seen(F.FlushOutcome(items, ctxErr, backend, latencyMs)[j])) in news
    ensures CountsAsModelled(s.stats, t.stats, items, ctxErr, backend, latencyMs)
  {
    var batch, payload := s.flushes[i].batch, F.Payload(items, ctxErr);
    var run1, t1, live := FilterAll(s, i, items, ctxErr);
    InvStays(s, run1);
    var run2, t2 := CallAndAnswer(t1, i, live, payload, backend(payload), latencyMs);
    JoinRuns(s, i, run1, t1, run2, t2);
    CountsAddUp(s, t1, t2, i, batch, live, items, ctxErr, backend, latencyMs);
    run, t := run1 + run2, t2;
    var answers := F.Answers(items, ctxErr, backend, latencyMs);
    SentAddsUp(s, t1, t, i, batch, ctxErr, AnswerLog(live, answers, |live|));
    news := DropLog(batch, ctxErr, |ctxErr|) + AnswerLog(live, answers, |live|);
    LogLengths(batch, ctxErr, |ctxErr|);
    AnswerLogLength(live, answers, |live|);
    forall j | 0 <= j < |items|
      ensures Delivery(batch[j], Seen(F.FlushOutcome(items, ctxErr, backend, latencyMs)[j])) in news
    {
      DeliveredAsModelled(batch, items, ctxErr, backend, latencyMs, j);
    }
  }
}
