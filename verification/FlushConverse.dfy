/**
 The converse of the refinement: in whatever run, interleaved with whatever else,
 a flush that has finished delivered what the single-flush model assigns for some
 contexts and some exchange with the backend.
 */
module FlushConverse {
  import opened Protocol
  import opened ProtocolSafety
  import opened FlushRefinement
  import F = Fanout
  import P = PythonBackend

  // ---------- A flush answers nobody but its own batch ----------

  ghost predicate WithinBatch(f: Flush, r: Req) {
    PhasePending(f.phase, r) <= Occurrences(f.batch, r)
  }

  ghost predicate WithinInv(s: State) {
    forall i, r :: 0 <= i < |s.flushes| ==> WithinBatch(s.flushes[i], r)
  }

  lemma PhaseOnlyShrinks(s: State, i: nat, f: FlushStep, r: Req)
    requires FlushEnabled(s, i, f)
    ensures PhasePending(NextPhase(s, i, f), r) <= PhasePending(s.flushes[i].phase, r)
  {
    var phase := s.flushes[i].phase;
    match f
    case Check => CheckBalance(s, i, r);
    case Drop => HeadTail(phase.todo, r);
    case Send(k, _) => WithoutOne(phase.rest, k, r);
    case _ =>
  }

  lemma WithinKept(s: State, a: Step)
    requires WithinInv(s)
    ensures WithinInv(Do(s, a))
  {
    var t := Do(s, a);
    forall i, r | 0 <= i < |t.flushes|
      ensures WithinBatch(t.flushes[i], r)
    {
      if i < |s.flushes| {
        assert WithinBatch(s.flushes[i], r);
        if Enabled(s, a) && a.OfFlush? {
          FlushFrame(s, a.i, a.f);
          PhaseOnlyShrinks(s, a.i, a.f, r);
        }
      }
    }
  }

  lemma {:induction false} WithinReachable(maxBatch: int, run: seq<Step>)
    ensures WithinInv(Exec(Init(maxBatch), run))
    decreases |run|
  {
    if run != [] {
      WithinReachable(maxBatch, run[..|run| - 1]);
      WithinKept(Exec(Init(maxBatch), run[..|run| - 1]), run[|run| - 1]);
    }
  }

  ghost predicate AllWithin(fs: seq<Flush>, r: Req) {
    forall k :: 0 <= k < |fs| ==> WithinBatch(fs[k], r)
  }

  /** What the last flush adds. */
  lemma LastFlush(fs: seq<Flush>, r: Req)
    requires fs != [] && AllWithin(fs, r)
    ensures var n := |fs| - 1;
      && AllWithin(fs[..n], r) && WithinBatch(fs[n], r)
      && PendingIn(fs, r) == PendingIn(fs[..n], r) + PhasePending(fs[n].phase, r)
      && Occurrences(Batches(fs), r) == Occurrences(Batches(fs[..n]), r) + Occurrences(fs[n].batch, r)
  {
    assert forall k :: 0 <= k < |fs| - 1 ==> fs[..|fs| - 1][k] == fs[k];
  }

  lemma {:induction false} PendingWithin(fs: seq<Flush>, r: Req)
    requires AllWithin(fs, r)
    ensures PendingIn(fs, r) <= Occurrences(Batches(fs), r)
  {
    if fs != [] {
      LastFlush(fs, r);
      PendingWithin(fs[..|fs| - 1], r);
    }
  }

  /** Flushes other than the i-th have no more pending than the rest of the batches holds. */
  lemma {:induction false} PendingBesides(fs: seq<Flush>, i: nat, r: Req)
    requires i < |fs| && AllWithin(fs, r)
    ensures PendingIn(fs, r) + Occurrences(fs[i].batch, r)
      <= Occurrences(Batches(fs), r) + PhasePending(fs[i].phase, r)
  {
    if i < |fs| - 1 {
      var init := fs[..|fs| - 1];
      assert init[i] == fs[i];
      LastFlush(fs, r);
      PendingBesides(init, i, r);
    } else {
      LastFlush(fs, r);
      PendingWithin(fs[..i], r);
    }
  }

  // ---------- What a finished flush has delivered ----------

  lemma {:induction false} InSomeBatch(fs: seq<Flush>, i: nat, r: Req)
    requires i < |fs|
    ensures Occurrences(Batches(fs), r) >= Occurrences(fs[i].batch, r)
  {
    if i < |fs| - 1 {
      InSomeBatch(fs[..|fs| - 1], i, r);
    }
  }

  /** Each request of a finished flush has been answered once, and was not drained. */
  lemma FinishedIsAnswered(s: State, i: nat, r: Req)
    requires Inv(s) && WithinInv(s) && i < |s.flushes| && s.flushes[i].phase == Finished && r in s.flushes[i].batch
    ensures Sends(s.sent, r) == 1 && r !in s.drained
  {
    assert Balanced(s, r) && AcceptedRightly(s, r);
    InSomeBatch(s.flushes, i, r);
    assert AllWithin(s.flushes, r);
    PendingBesides(s.flushes, i, r);
    assert Occurrences(s.accepted, r) == Occurrences(Batches(s.flushes), r) + Occurrences(s.drained, r)
      + Occurrences(InHand(s.main), r) + Occurrences(s.queue, r);
    assert Occurrences(s.flushes[i].batch, r) > 0;
    assert Occurrences(s.drained, r) == 0;
  }

  lemma {:induction false} SentSomewhere(sent: seq<Delivery>, r: Req) returns (d: Delivery)
    requires Sends(sent, r) > 0
    ensures d in sent && d.req == r
  {
    if sent[|sent| - 1].req == r {
      d := sent[|sent| - 1];
    } else {
      d := SentSomewhere(sent[..|sent| - 1], r);
    }
  }

  ghost predicate Delivered(s: State, batch: seq<Req>, outs: seq<Outcome>) {
    |outs| <= |batch| &&
    forall j :: 0 <= j < |outs| ==>
      && Delivery(batch[j], outs[j]) in s.sent && Sends(s.sent, batch[j]) == 1
      && outs[j] != DrainError && (outs[j] == ContextError ==> batch[j] in s.cancelled)
  }

  /** The outcomes of the first n requests of a finished flush. */
  lemma {:induction false} OutcomesOf(s: State, i: nat, n: nat) returns (outs: seq<Outcome>)
    requires Inv(s) && WithinInv(s) && CauseInv(s)
    requires i < |s.flushes| && s.flushes[i].phase == Finished && n <= |s.flushes[i].batch|
    ensures |outs| == n && Delivered(s, s.flushes[i].batch, outs)
  {
    if n == 0 {
      outs := [];
    } else {
      var r := s.flushes[i].batch[n - 1];
      var init := OutcomesOf(s, i, n - 1);
      FinishedIsAnswered(s, i, r);
      var d := SentSomewhere(s.sent, r);
      assert Caused(d, s.cancelled, s.drained);
      assert d == Delivery(r, d.outcome);
      outs := init + [d.outcome];
    }
  }

  // ---------- The model covers it ----------

  function ContextsOf(outs: seq<Outcome>): seq<F.Option<string>> {
    seq(|outs|, j requires 0 <= j < |outs| => if outs[j] == ContextError then F.Some("") else F.None)
  }

  /** A response that makes exactly the requests succeed that did. */
  function ScriptedResults(items: seq<F.Item>, outs: seq<Outcome>): seq<F.SingleResult>
    requires |items| == |outs|
  {
    var payload, at := F.Payload(items, ContextsOf(outs)), F.Live(ContextsOf(outs));
    seq(|payload|, a requires 0 <= a < |payload| =>
      F.SingleResult(payload[a].id, "",
                     if at[a] < |outs| && outs[at[a]] == Answer(true) then "" else "failed"))
  }

  function Answering(exchange: F.Exchange): F.Backend {
    _ => exchange
  }

  lemma AnyOutcomesAreModelled(items: seq<F.Item>, outs: seq<Outcome>, latencyMs: int, j: nat)
    requires j < |items| == |outs| && outs[j] != DrainError
    ensures var exchange := F.Response(200, "", F.Some(ScriptedResults(items, outs)));
      Seen(F.FlushOutcome(items, ContextsOf(outs), Answering(exchange), latencyMs)[j]) == outs[j]
  {
    var ctxErr := ContextsOf(outs);
    if outs[j] != ContextError {
      var payload, a := F.Payload(items, ctxErr), |F.Live(ctxErr[..j])|;
      F.LiveRank(ctxErr, j);
      P.InputOrderIsOwnEntry(ScriptedResults(items, outs), payload, latencyMs, a);
    }
  }

  /**
   In any run, a finished flush has sent every request of its batch one result, the
   one the single-flush model names for some contexts, ended only where the
   request's context had ended, and some exchange with the backend.
   */
  lemma FinishedFlushIsModelled(maxBatch: int, run: seq<Step>, i: nat, items: seq<F.Item>, latencyMs: int)
    returns (ctxErr: seq<F.Option<string>>, exchange: F.Exchange)
    requires var s := Exec(Init(maxBatch), run);
      i < |s.flushes| && s.flushes[i].phase == Finished && |items| == |s.flushes[i].batch|
    ensures |ctxErr| == |items|
    ensures var s := Exec(Init(maxBatch), run);
      forall j :: 0 <= j < |items| ==>
        && (ctxErr[j].Some? ==> s.flushes[i].batch[j] in s.cancelled)
        && Sends(s.sent, s.flushes[i].batch[j]) == 1
        && Delivery(s.flushes[i].batch[j], Seen(F.FlushOutcome(items, ctxErr, Answering(exchange), latencyMs)[j]))
             in s.sent
  {
    var s := Exec(Init(maxBatch), run);
    Reachable(maxBatch, run);
    WithinReachable(maxBatch, run);
    ErrorsHaveCauses(maxBatch, run);
    var outs := OutcomesOf(s, i, |items|);
    ctxErr, exchange := ContextsOf(outs), F.Response(200, "", F.Some(ScriptedResults(items, outs)));
    forall j | 0 <= j < |items|
      ensures Seen(F.FlushOutcome(items, ctxErr, Answering(exchange), latencyMs)[j]) == outs[j]
    {
      AnyOutcomesAreModelled(items, outs, latencyMs, j);
    }
  }
}
