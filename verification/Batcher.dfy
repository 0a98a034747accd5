/**
 Flushing and draining as they are executed: requests with one-slot result
 channels, an id index whose lists are popped in place, and metrics counters.
 Each send demands an empty slot, so it can never block a flush.
 */
module Batcher {
  import opened Fanout

  class Request {
    const item: Item
    /** Everything ever sent on the result channel, whose buffer holds one result. */
    var results: seq<Result>

    constructor (item: Item)
      ensures this.item == item && results == []
    {
      this.item := item;
      results := [];
    }

    method Send(r: Result)
      requires results == []
      modifies this
      ensures results == [r]
    {
      results := [r];
    }
  }

  function Items(batch: seq<Request>): seq<Item> {
    seq(|batch|, i requires 0 <= i < |batch| => batch[i].item)
  }

  ghost predicate Distinct(batch: seq<Request>) {
    forall i, j :: 0 <= i < j < |batch| ==> batch[i] != batch[j]
  }

  /** The channels of the batch hold exactly what the log says. */
  ghost predicate Holds(batch: seq<Request>, log: seq<Option<Result>>)
    reads batch
  {
    |log| == |batch| &&
    forall i :: 0 <= i < |batch| ==> batch[i].results == if log[i].Some? then [log[i].value] else []
  }

  ghost predicate Unanswered(batch: seq<Request>)
    reads batch
  {
    Holds(batch, NothingSent(|batch|))
  }

  function Pending(index: map<string, seq<Request>>, id: string): seq<Request> {
    if id in index then index[id] else []
  }

  /** The requests with a given id, in batch order. */
  function Group(active: seq<Request>, id: string): seq<Request> {
    if active == [] then []
    else
      var last := active[|active| - 1];
      Group(active[..|active| - 1], id) + if last.item.id == id then [last] else []
  }

  lemma {:induction false} GroupIsPositions(active: seq<Request>, id: string)
    ensures |Group(active, id)| == |Positions(IdsOf(Items(active)), id)|
    ensures forall k :: 0 <= k < |Group(active, id)| ==>
      var i := Positions(IdsOf(Items(active)), id)[k]; i < |active| && Group(active, id)[k] == active[i]
  {
    if active != [] {
      var n := |active| - 1;
      GroupIsPositions(active[..n], id);
      assert IdsOf(Items(active))[..n] == IdsOf(Items(active[..n]));
    }
  }

  function Drop(s: seq<Request>, n: nat): seq<Request> {
    if n < |s| then s[n..] else []
  }

  /** The index lists, for every id, the requests not yet answered by the entries seen. */
  ghost predicate Indexes(index: map<string, seq<Request>>, active: seq<Request>, seen: seq<SingleResult>) {
    forall id :: Pending(index, id) == Drop(Group(active, id), |Select(seen, id)|)
  }

  /** The index lists the first n requests by id. */
  ghost predicate Lists(index: map<string, seq<Request>>, active: seq<Request>, n: nat)
    requires n <= |active|
  {
    forall id :: Pending(index, id) == Group(active[..n], id)
  }

  lemma ListsNothing(active: seq<Request>)
    ensures Lists(map[], active, 0)
  {
    assert active[..0] == [];
  }

  lemma ListsOneMore(index: map<string, seq<Request>>, active: seq<Request>, i: nat)
    requires i < |active| && Lists(index, active, i)
    ensures Lists(index[active[i].item.id := Pending(index, active[i].item.id) + [active[i]]], active, i + 1)
  {
    var id := active[i].item.id;
    var next := index[id := Pending(index, id) + [active[i]]];
    assert active[..i + 1][..i] == active[..i];
    forall other
      ensures Pending(next, other) == Group(active[..i + 1], other)
    {
      assert Pending(index, other) == Group(active[..i], other);
    }
  }

  lemma ListsAll(index: map<string, seq<Request>>, active: seq<Request>)
    requires Lists(index, active, |active|)
    ensures Indexes(index, active, [])
  {
    assert active[..|active|] == active;
    forall id
      ensures Pending(index, id) == Drop(Group(active, id), |Select([], id)|)
    {
      assert Pending(index, id) == Group(active[..|active|], id);
    }
  }

  lemma AllIdsSettled(index: map<string, seq<Request>>, active: seq<Request>, results: seq<SingleResult>)
    requires Indexes(index, active, results)
    ensures forall other :: other !in index ==> |Positions(IdsOf(Items(active)), other)| <= |Select(results, other)|
  {
    forall other | other !in index
      ensures |Positions(IdsOf(Items(active)), other)| <= |Select(results, other)|
    {
      assert Pending(index, other) == [];
      GroupIsPositions(active, other);
    }
  }

  /** Popping the list of entry j's id keeps the index in step with the entries seen. */
  lemma IndexPopped(index: map<string, seq<Request>>, active: seq<Request>, results: seq<SingleResult>, j: nat)
    requires j < |results| && Indexes(index, active, results[..j])
    ensures var id := results[j].id;
      var c, places, reqs := |Select(results[..j], id)|, Positions(IdsOf(Items(active)), id), Pending(index, id);
      if c < |places|
      then && reqs != [] && places[c] < |active| && reqs[0] == active[places[c]]
           && Indexes(index[id := reqs[1..]], active, results[..j + 1])
      else reqs == [] && Indexes(index, active, results[..j + 1])
  {
    var id := results[j].id;
    var reqs := Pending(index, id);
    SelectStep(results, j);
    GroupIsPositions(active, id);
    var next := if reqs != [] then index[id := reqs[1..]] else index;
    forall other
      ensures Pending(next, other) == Drop(Group(active, other), |Select(results[..j + 1], other)|)
    {
      assert Pending(index, other) == Drop(Group(active, other), |Select(results[..j], other)|);
    }
  }

  /** The m-th request left over for an id is the one of rank m beyond the answered ones. */
  lemma LeftOver(active: seq<Request>, results: seq<SingleResult>, id: string, m: nat)
    ensures var reqs, c := Drop(Group(active, id), |Select(results, id)|), |Select(results, id)|;
      var places := Positions(IdsOf(Items(active)), id);
      && (m < |reqs| ==> c + m < |places| && places[c + m] < |active| && reqs[m] == active[places[c + m]])
      && (m == |reqs| ==> |places| <= c + m)
  {
    GroupIsPositions(active, id);
  }

  /** What the cancelled requests have received before the backend is called. */
  function CancelLog(ctxErr: seq<Option<string>>): seq<Option<Result>> {
    seq(|ctxErr|, i requires 0 <= i < |ctxErr| =>
      if ctxErr[i].Some? then Some(Error(ContextDone(ctxErr[i].value))) else None)
  }

  ghost predicate AreLive(active: seq<Request>, batch: seq<Request>, ctxErr: seq<Option<string>>)
    requires |batch| == |ctxErr|
  {
    && |active| == |Live(ctxErr)|
    && forall a :: 0 <= a < |active| ==> Live(ctxErr)[a] < |batch| && active[a] == batch[Live(ctxErr)[a]]
  }

  lemma LiveRequests(active: seq<Request>, batch: seq<Request>, ctxErr: seq<Option<string>>)
    requires Distinct(batch) && |batch| == |ctxErr| && AreLive(active, batch, ctxErr)
    requires Holds(batch, CancelLog(ctxErr))
    ensures Distinct(active) && Items(active) == Payload(Items(batch), ctxErr) && Unanswered(active)
    ensures forall i :: 0 <= i < |batch| && ctxErr[i].Some? ==> batch[i] !in active
    ensures forall a :: 0 <= a < |active| ==> active[a] in batch
  {
    LiveInRange(ctxErr);
  }

  /** The cancelled requests keep their error, the live ones have their answer. */
  lemma BatchSettled(active: seq<Request>, batch: seq<Request>, ctxErr: seq<Option<string>>, backend: Backend,
                     latencyMs: int)
    requires |batch| == |ctxErr| && AreLive(active, batch, ctxErr)
    requires Items(active) == Payload(Items(batch), ctxErr)
    requires Holds(active, AllSent(Resolve(Items(active), backend(Items(active)), latencyMs)))
    requires forall i :: 0 <= i < |batch| && ctxErr[i].Some? ==>
      batch[i].results == [Error(ContextDone(ctxErr[i].value))]
    ensures Holds(batch, AllSent(FlushOutcome(Items(batch), ctxErr, backend, latencyMs)))
  {
    var out := Resolve(Items(active), backend(Items(active)), latencyMs);
    forall i | 0 <= i < |batch|
      ensures batch[i].results == [FlushOutcome(Items(batch), ctxErr, backend, latencyMs)[i]]
    {
      if ctxErr[i].None? {
        LiveRank(ctxErr, i);
        var a := |Live(ctxErr[..i])|;
        assert active[a] == batch[i] && AllSent(out)[a] == Some(out[a]);
      }
    }
  }

  lemma AllCancelled(batch: seq<Request>, ctxErr: seq<Option<string>>, backend: Backend, latencyMs: int)
    requires |batch| == |ctxErr| && Live(ctxErr) == [] && Holds(batch, CancelLog(ctxErr))
    ensures Holds(batch, AllSent(FlushOutcome(Items(batch), ctxErr, backend, latencyMs)))
    ensures Wins(AllSent(Answers(Items(batch), ctxErr, backend, latencyMs))) == 0
    ensures Observed(Payload(Items(batch), ctxErr), backend) == []
  {
    forall i | 0 <= i < |batch|
      ensures ctxErr[i].Some?
    {
      if ctxErr[i].None? {
        LiveRank(ctxErr, i);
        assert false;
      }
    }
    assert AllSent(FlushOutcome(Items(batch), ctxErr, backend, latencyMs)) == CancelLog(ctxErr);
  }

  lemma MissingStep(active: seq<Request>, results: seq<SingleResult>, latencyMs: int, done: set<string>,
                    id: string, m: nat)
    returns (i: nat)
    requires id !in done && m < |Drop(Group(active, id), |Select(results, id)|)|
    ensures i < |active| && active[i] == Drop(Group(active, id), |Select(results, id)|)[m]
    ensures var log := LogMissing(IdsOf(Items(active)), results, latencyMs, done, id, m);
      && log[i].None?
      && LogMissing(IdsOf(Items(active)), results, latencyMs, done, id, m + 1)
         == log[i := Some(Error(MissingResult(id)))]
  {
    LeftOver(active, results, id, m);
    LogMissingStep(IdsOf(Items(active)), results, latencyMs, done, id, m);
    i := Positions(IdsOf(Items(active)), id)[|Select(results, id)| + m];
  }

  class Batcher {
    var queue: seq<Request>
    var inferSuccess: nat
    var inferErrors: nat
    var batchSizes: seq<nat>

    method FailRequest(req: Request, failure: Failure)
      requires req.results == []
      modifies this`inferErrors, req
      ensures req.results == [Error(failure)] && inferErrors == old(inferErrors) + 1
    {
      inferErrors := inferErrors + 1;
      req.Send(Error(failure));
    }

    method FailBatch(batch: seq<Request>, failure: Failure)
      requires Distinct(batch) && Unanswered(batch)
      modifies this`inferErrors, batch
      ensures Holds(batch, AllSent(SameForAll(|batch|, failure)))
      ensures inferErrors == old(inferErrors) + |batch|
    {
      var i := 0;
      while i < |batch|
        invariant 0 <= i <= |batch|
        invariant forall k :: 0 <= k < i ==> batch[k].results == [Error(failure)]
        invariant forall k :: i <= k < |batch| ==> batch[k].results == []
        invariant inferErrors == old(inferErrors) + i
      {
        FailRequest(batch[i], failure);
        i := i + 1;
      }
    }

    /** Empties the queue, failing every request in it. */
    method DrainQueueWithError(failure: Failure)
      requires Distinct(queue) && Unanswered(queue)
      modifies this`queue, this`inferErrors, queue
      ensures queue == []
      ensures Holds(old(queue), AllSent(SameForAll(|old(queue)|, failure)))
      ensures inferErrors == old(inferErrors) + |old(queue)|
    {
      ghost var i := 0;
      while queue != []
        invariant 0 <= i <= |old(queue)| && queue == old(queue)[i..]
        invariant forall k :: 0 <= k < i ==> old(queue)[k].results == [Error(failure)]
        invariant forall k :: i <= k < |old(queue)| ==> old(queue)[k].results == []
        invariant inferErrors == old(inferErrors) + i
        decreases |queue|
      {
        var req := queue[0];
        queue := queue[1..];
        FailRequest(req, failure);
        i := i + 1;
      }
    }

    /** How the main loop ends: whatever is still queued is told that the batcher has stopped. */
    method EndLoop()
      requires Distinct(queue) && Unanswered(queue)
      modifies this`queue, this`inferErrors, queue
      ensures queue == [] && inferErrors == old(inferErrors) + |old(queue)|
      ensures forall i :: 0 <= i < |old(queue)| ==> old(queue)[i].results == [Error(BatcherStopped)]
    {
      DrainQueueWithError(BatcherStopped);
    }

    /** Lists the requests of every id in batch order. */
    static method BuildIndex(active: seq<Request>) returns (index: map<string, seq<Request>>)
      ensures Indexes(index, active, [])
    {
      index := map[];
      ListsNothing(active);
      var i := 0;
      while i < |active|
        invariant 0 <= i <= |active|
        invariant Lists(index, active, i)
      {
        var r := active[i];
        ListsOneMore(index, active, i);
        index := index[r.item.id := Pending(index, r.item.id) + [r]];
        i := i + 1;
      }
      ListsAll(index, active);
    }

    /** Counts one answer and sends it to a request of the batch that has none. */
    method Answer(req: Request, r: Result, ghost active: seq<Request>, ghost log: seq<Option<Result>>, ghost i: nat)
      requires Distinct(active) && Holds(active, log)
      requires i < |active| && req == active[i] && log[i].None?
      modifies this`inferSuccess, this`inferErrors, req
      ensures Holds(active, log[i := Some(r)])
      ensures inferSuccess - Wins(log[i := Some(r)]) == old(inferSuccess) - Wins(log)
      ensures inferErrors - Losses(log[i := Some(r)]) == old(inferErrors) - Losses(log)
    {
      if r.Error? {
        inferErrors := inferErrors + 1;
      } else {
        inferSuccess := inferSuccess + 1;
      }
      req.Send(r);
      CountsAfterSend(log, i, r);
    }

    /** Hands entry j to the first request waiting for its id, if there is one. */
    method MatchOne(active: seq<Request>, index: map<string, seq<Request>>, results: seq<SingleResult>,
                    latencyMs: int, j: nat, ghost log: seq<Option<Result>>)
      returns (next: map<string, seq<Request>>, ghost nextLog: seq<Option<Result>>)
      requires j < |results| && Distinct(active) && Indexes(index, active, results[..j])
      requires log == LogAfter(IdsOf(Items(active)), results, latencyMs, j) && Holds(active, log)
      modifies this`inferSuccess, this`inferErrors, active
      ensures Indexes(next, active, results[..j + 1])
      ensures nextLog == LogAfter(IdsOf(Items(active)), results, latencyMs, j + 1) && Holds(active, nextLog)
      ensures inferSuccess - Wins(nextLog) == old(inferSuccess) - Wins(log)
      ensures inferErrors - Losses(nextLog) == old(inferErrors) - Losses(log)
    {
      ghost var ids := IdsOf(Items(active));
      var res := results[j];
      var reqs := Pending(index, res.id);
      IndexPopped(index, active, results, j);
      LogStep(ids, results, latencyMs, j);
      if reqs == [] {
        return index, log;
      }
      var req := reqs[0];
      next := index[res.id := reqs[1..]];
      ghost var i := Positions(ids, res.id)[|Select(results[..j], res.id)|];
      var r := if res.error != "" then Error(BackendItem(res.error)) else Success(res.output, latencyMs);
      nextLog := log[i := Some(r)];
      Answer(req, r, active, log, i);
    }

    /** Consumes the response entries in arrival order. */
    method MatchResults(active: seq<Request>, index0: map<string, seq<Request>>, results: seq<SingleResult>,
                        latencyMs: int)
      returns (index: map<string, seq<Request>>, ghost log: seq<Option<Result>>)
      requires Distinct(active) && Indexes(index0, active, [])
      requires Unanswered(active)
      modifies this`inferSuccess, this`inferErrors, active
      ensures Indexes(index, active, results)
      ensures log == LogAfter(IdsOf(Items(active)), results, latencyMs, |results|) && Holds(active, log)
      ensures inferSuccess == old(inferSuccess) + Wins(log) && inferErrors == old(inferErrors) + Losses(log)
    {
      ghost var ids := IdsOf(Items(active));
      index := index0;
      log := NothingSent(|active|);
      var j := 0;
      assert results[..0] == [];
      LogStart(ids, results, latencyMs);
      while j < |results|
        invariant 0 <= j <= |results|
        invariant Indexes(index, active, results[..j])
        invariant log == LogAfter(ids, results, latencyMs, j) && Holds(active, log)
        invariant inferSuccess == old(inferSuccess) + Wins(log)
        invariant inferErrors == old(inferErrors) + Losses(log)
      {
        index, log := MatchOne(active, index, results, latencyMs, j, log);
        j := j + 1;
      }
      assert results[..|results|] == results;
    }

    /** Tells the next remaining request of an id that the backend omitted it. */
    method FailOne(active: seq<Request>, req: Request, id: string, ghost results: seq<SingleResult>,
                   ghost latencyMs: int, ghost done: set<string>, ghost m: nat, ghost log: seq<Option<Result>>)
      returns (ghost next: seq<Option<Result>>)
      requires Distinct(active) && Holds(active, log) && id !in done
      requires log == LogMissing(IdsOf(Items(active)), results, latencyMs, done, id, m)
      requires var reqs := Drop(Group(active, id), |Select(results, id)|); m < |reqs| && reqs[m] == req
      modifies this`inferSuccess, this`inferErrors, active
      ensures next == LogMissing(IdsOf(Items(active)), results, latencyMs, done, id, m + 1) && Holds(active, next)
      ensures inferSuccess - Wins(next) == old(inferSuccess) - Wins(log)
      ensures inferErrors - Losses(next) == old(inferErrors) - Losses(log)
    {
      ghost var i := MissingStep(active, results, latencyMs, done, id, m);
      next := log[i := Some(Error(MissingResult(id)))];
      Answer(req, Error(MissingResult(id)), active, log, i);
    }

    /** Tells the remaining requests of one id that the backend omitted them. */
    method FailRemaining(active: seq<Request>, reqs: seq<Request>, id: string, ghost results: seq<SingleResult>,
                         ghost latencyMs: int, ghost done: set<string>, ghost log0: seq<Option<Result>>)
      returns (ghost log: seq<Option<Result>>)
      requires Distinct(active) && reqs == Drop(Group(active, id), |Select(results, id)|) && id !in done
      requires log0 == LogMissing(IdsOf(Items(active)), results, latencyMs, done, id, 0) && Holds(active, log0)
      modifies this`inferSuccess, this`inferErrors, active
      ensures log == LogMissing(IdsOf(Items(active)), results, latencyMs, done + {id}, id, 0) && Holds(active, log)
      ensures inferSuccess - Wins(log) == old(inferSuccess) - Wins(log0)
      ensures inferErrors - Losses(log) == old(inferErrors) - Losses(log0)
    {
      ghost var ids := IdsOf(Items(active));
      log := log0;
      var m := 0;
      while m < |reqs|
        invariant 0 <= m <= |reqs|
        invariant log == LogMissing(ids, results, latencyMs, done, id, m) && Holds(active, log)
        invariant inferSuccess - Wins(log) == old(inferSuccess) - Wins(log0)
        invariant inferErrors - Losses(log) == old(inferErrors) - Losses(log0)
      {
        log := FailOne(active, reqs[m], id, results, latencyMs, done, m, log);
        m := m + 1;
      }
      LeftOver(active, results, id, m);
      LogMissingSettled(ids, results, latencyMs, done, id, m);
    }

    /** Visits the index in an arbitrary order. */
    method FailMissing(active: seq<Request>, index: map<string, seq<Request>>,
                       ghost results: seq<SingleResult>, ghost latencyMs: int, ghost log0: seq<Option<Result>>)
      requires Distinct(active) && Indexes(index, active, results)
      requires log0 == LogAfter(IdsOf(Items(active)), results, latencyMs, |results|) && Holds(active, log0)
      modifies this`inferSuccess, this`inferErrors, active
      ensures Holds(active, AllSent(Pairing(IdsOf(Items(active)), results, latencyMs)))
      ensures inferSuccess - Wins(AllSent(Pairing(IdsOf(Items(active)), results, latencyMs)))
        == old(inferSuccess) - Wins(log0)
      ensures inferErrors - Losses(AllSent(Pairing(IdsOf(Items(active)), results, latencyMs)))
        == old(inferErrors) - Losses(log0)
    {
      ghost var ids := IdsOf(Items(active));
      var todo := index.Keys;
      ghost var done: set<string> := {};
      ghost var log := log0;
      LogMissingStart(ids, results, latencyMs, done, "", "");
      while todo != {}
        invariant done !! todo && done + todo == index.Keys
        invariant log == LogMissing(ids, results, latencyMs, done, "", 0) && Holds(active, log)
        invariant inferSuccess - Wins(log) == old(inferSuccess) - Wins(log0)
        invariant inferErrors - Losses(log) == old(inferErrors) - Losses(log0)
        decreases todo
      {
        var id :| id in todo;
        assert index[id] == Pending(index, id);
        LogMissingStart(ids, results, latencyMs, done, "", id);
        log := FailRemaining(active, index[id], id, results, latencyMs, done, log);
        done, todo := done + {id}, todo - {id};
        LogMissingStart(ids, results, latencyMs, done, "", id);
      }
      assert done == index.Keys;
      AllIdsSettled(index, active, results);
      LogMissingEnd(ids, results, latencyMs, done, "");
    }

    /** Pairs a decoded response with the live requests, duplicate and unknown ids included. */
    method FanOut(active: seq<Request>, results: seq<SingleResult>, latencyMs: int)
      requires Distinct(active) && Unanswered(active)
      modifies this`inferSuccess, this`inferErrors, active
      ensures Holds(active, AllSent(Pairing(IdsOf(Items(active)), results, latencyMs)))
      ensures inferSuccess == old(inferSuccess) + Wins(AllSent(Pairing(IdsOf(Items(active)), results, latencyMs)))
      ensures inferErrors == old(inferErrors) + Losses(AllSent(Pairing(IdsOf(Items(active)), results, latencyMs)))
    {
      var index := BuildIndex(active);
      ghost var log;
      index, log := MatchResults(active, index, results, latencyMs);
      FailMissing(active, index, results, latencyMs, log);
    }

    /** Fails the requests whose context has ended and returns the others, in order. */
    method DropCancelled(batch: seq<Request>, ctxErr: seq<Option<string>>) returns (active: seq<Request>)
      requires Distinct(batch) && Unanswered(batch) && |ctxErr| == |batch|
      modifies this`inferErrors, batch
      ensures AreLive(active, batch, ctxErr)
      ensures Holds(batch, CancelLog(ctxErr))
      ensures inferErrors == old(inferErrors) + |batch| - |active|
    {
      active := [];
      var i := 0;
      while i < |batch|
        invariant 0 <= i <= |batch| && |active| <= i
        invariant AreLive(active, batch[..i], ctxErr[..i])
        invariant forall k :: 0 <= k < i ==>
          batch[k].results == if ctxErr[k].Some? then [Error(ContextDone(ctxErr[k].value))] else []
        invariant forall k :: i <= k < |batch| ==> batch[k].results == []
        invariant inferErrors == old(inferErrors) + i - |active|
      {
        assert ctxErr[..i + 1][..i] == ctxErr[..i];
        if ctxErr[i].Some? {
          FailRequest(batch[i], ContextDone(ctxErr[i].value));
        } else {
          active := active + [batch[i]];
        }
        i := i + 1;
      }
      assert ctxErr[..|batch|] == ctxErr && batch[..|batch|] == batch;
    }

    /** Answers every live request, given how the exchange with the backend went. */
    method Settle(active: seq<Request>, exchange: Exchange, latencyMs: int)
      requires Distinct(active) && Unanswered(active)
      modifies this`inferSuccess, this`inferErrors, this`batchSizes, active
      ensures Holds(active, AllSent(Resolve(Items(active), exchange, latencyMs)))
      ensures inferSuccess == old(inferSuccess) + Wins(AllSent(Resolve(Items(active), exchange, latencyMs)))
      ensures inferErrors == old(inferErrors) + |active| - Wins(AllSent(Resolve(Items(active), exchange, latencyMs)))
      ensures batchSizes == old(batchSizes) + Reached(exchange, |active|)
    {
      ghost var out := Resolve(Items(active), exchange, latencyMs);
      CountsAtEnd(out);
      if WholeBatchFails(exchange) {
        AllErrors(out);
      }
      match exchange {
        case MarshalFailed(detail) =>
          FailBatch(active, ResponseInvalid(detail));
        case RequestNotBuilt(detail) =>
          FailBatch(active, ResponseInvalid(detail));
        case TransportFailed(detail) =>
          batchSizes := batchSizes + [|active|];
          FailBatch(active, Unavailable(detail));
        case Response(status, body, decoded) =>
          batchSizes := batchSizes + [|active|];
          if status < 200 || status >= 300 {
            FailBatch(active, Unavailable(body));
          } else if decoded.None? {
            FailBatch(active, ResponseInvalid(body));
          } else {
            FanOut(active, decoded.value, latencyMs);
          }
      }
    }

    /**
     Flushes one batch: every request of it ends up with exactly one result, the
     one `FlushOutcome` names, and the counters account for all of them.
     */
    method FlushBatch(batch: seq<Request>, ctxErr: seq<Option<string>>, backend: Backend, latencyMs: int)
      requires Distinct(batch) && Unanswered(batch) && |ctxErr| == |batch|
      modifies this`inferSuccess, this`inferErrors, this`batchSizes, batch
      ensures Holds(batch, AllSent(FlushOutcome(Items(batch), ctxErr, backend, latencyMs)))
      ensures forall i :: 0 <= i < |batch| ==>
        batch[i].results == [FlushOutcome(Items(batch), ctxErr, backend, latencyMs)[i]]
      ensures (inferSuccess - old(inferSuccess)) + (inferErrors - old(inferErrors)) == |batch|
      ensures inferSuccess == old(inferSuccess) + Wins(AllSent(Answers(Items(batch), ctxErr, backend, latencyMs)))
      ensures batchSizes == old(batchSizes) + Observed(Payload(Items(batch), ctxErr), backend)
    {
      var active := DropCancelled(batch, ctxErr);
      LiveRequests(active, batch, ctxErr);
      if |active| == 0 {
        AllCancelled(batch, ctxErr, backend, latencyMs);
      } else {
        SettleLive(active, batch, ctxErr, backend(Items(active)), latencyMs);
        BatchSettled(active, batch, ctxErr, backend, latencyMs);
        assert Reached(backend(Items(active)), |active|) == Observed(Payload(Items(batch), ctxErr), backend);
      }
    }

    /** Settling the live requests leaves the channels of the cancelled ones alone. */
    method SettleLive(active: seq<Request>, ghost batch: seq<Request>, ghost ctxErr: seq<Option<string>>,
                      exchange: Exchange, latencyMs: int)
      requires Distinct(active) && Unanswered(active)
      requires |batch| == |ctxErr| && Holds(batch, CancelLog(ctxErr))
      requires forall i :: 0 <= i < |batch| && ctxErr[i].Some? ==> batch[i] !in active
      modifies this`inferSuccess, this`inferErrors, this`batchSizes, active
      ensures forall i :: 0 <= i < |batch| && ctxErr[i].Some? ==>
        batch[i].results == [Error(ContextDone(ctxErr[i].value))]
      ensures Holds(active, AllSent(Resolve(Items(active), exchange, latencyMs)))
      ensures inferSuccess == old(inferSuccess) + Wins(AllSent(Resolve(Items(active), exchange, latencyMs)))
      ensures inferErrors == old(inferErrors) + |active| - Wins(AllSent(Resolve(Items(active), exchange, latencyMs)))
      ensures batchSizes == old(batchSizes) + Reached(exchange, |active|)
    {
      forall i | 0 <= i < |batch| && ctxErr[i].Some?
        ensures batch[i].results == [Error(ContextDone(ctxErr[i].value))]
      {
        assert CancelLog(ctxErr)[i] == Some(Error(ContextDone(ctxErr[i].value)));
      }
      Settle(active, exchange, latencyMs);
    }
  }
}
