/**
 Correlating a backend response with a batch. The specification pairs, for every
 id, the k-th request carrying it with the k-th response entry carrying it.
 */
module Fanout {
  datatype Option<T> = None | Some(value: T)

  type Bytes = seq<bv8>

  /** One item of the backend payload. */
  datatype Item = Item(id: string, input: Bytes, model: string)

  /** One entry of the backend response. */
  datatype SingleResult = SingleResult(id: string, output: string, error: string)

  datatype Failure =
    | ContextDone(reason: string)
    | Unavailable(detail: string)
    | ResponseInvalid(detail: string)
    | BackendItem(message: string)
    | MissingResult(id: string)
    | BatcherStopped

  /** What a caller receives on its result channel. */
  datatype Result = Success(output: string, latencyMs: int) | Error(failure: Failure)

  /** How the exchange with the backend went. */
  datatype Exchange =
    | MarshalFailed(detail: string)
    | RequestNotBuilt(detail: string)
    | TransportFailed(detail: string)
    | Response(status: int, body: string, decoded: Option<seq<SingleResult>>)

  type Backend = seq<Item> -> Exchange

  // ---------- The pairing ----------

  /** The entries for one id, in arrival order. */
  function Select(results: seq<SingleResult>, id: string): seq<SingleResult> {
    if results == [] then []
    else
      var last := results[|results| - 1];
      Select(results[..|results| - 1], id) + if last.id == id then [last] else []
  }

  /** The positions at which an id occurs, in order. */
  function Positions(ids: seq<string>, id: string): seq<nat> {
    if ids == [] then []
    else Positions(ids[..|ids| - 1], id) + if ids[|ids| - 1] == id then [|ids| - 1] else []
  }

  /** How many earlier requests carry the same id as request i. */
  function Rank(ids: seq<string>, i: nat): nat
    requires i < |ids|
  {
    |Positions(ids[..i], ids[i])|
  }

  function ResultOf(res: SingleResult, latencyMs: int): Result {
    if res.error != "" then Error(BackendItem(res.error)) else Success(res.output, latencyMs)
  }

  function PairedResult(ids: seq<string>, results: seq<SingleResult>, latencyMs: int, i: nat): Result
    requires i < |ids|
  {
    var mine, k := Select(results, ids[i]), Rank(ids, i);
    if k < |mine| then ResultOf(mine[k], latencyMs) else Error(MissingResult(ids[i]))
  }

  function Pairing(ids: seq<string>, results: seq<SingleResult>, latencyMs: int): seq<Result> {
    seq(|ids|, i requires 0 <= i < |ids| => PairedResult(ids, results, latencyMs, i))
  }

  // ---------- Positions and ranks ----------

  lemma {:induction false} PositionsAreRanked(ids: seq<string>, id: string)
    ensures forall k :: 0 <= k < |Positions(ids, id)| ==>
      var i := Positions(ids, id)[k]; i < |ids| && ids[i] == id && Rank(ids, i) == k
  {
    if ids != [] {
      var n := |ids| - 1;
      PositionsAreRanked(ids[..n], id);
      forall k | 0 <= k < |Positions(ids, id)|
        ensures var i := Positions(ids, id)[k]; i < |ids| && ids[i] == id && Rank(ids, i) == k
      {
        var i := Positions(ids, id)[k];
        if k < |Positions(ids[..n], id)| {
          assert ids[..n][..i] == ids[..i];
        }
      }
    }
  }

  lemma {:induction false} RankIsPosition(ids: seq<string>, i: nat)
    requires i < |ids|
    ensures Rank(ids, i) < |Positions(ids, ids[i])| && Positions(ids, ids[i])[Rank(ids, i)] == i
  {
    var n := |ids| - 1;
    if i < n {
      RankIsPosition(ids[..n], i);
      assert ids[..n][..i] == ids[..i];
    }
  }

  lemma {:induction false} SelectPrefix(results: seq<SingleResult>, id: string, j: nat)
    requires j <= |results|
    ensures Select(results[..j], id) <= Select(results, id)
    decreases |results|
  {
    if j < |results| {
      var n := |results| - 1;
      SelectPrefix(results[..n], id, j);
      assert results[..n][..j] == results[..j];
    } else {
      assert results[..j] == results;
    }
  }

  // ---------- The channels while the response is consumed ----------

  /** Request i has been answered as soon as enough entries with its id have arrived. */
  function LogAfter(ids: seq<string>, results: seq<SingleResult>, latencyMs: int, j: nat): seq<Option<Result>>
    requires j <= |results|
  {
    seq(|ids|, i requires 0 <= i < |ids| =>
      if Rank(ids, i) < |Select(results[..j], ids[i])| then Some(PairedResult(ids, results, latencyMs, i)) else None)
  }

  lemma SelectStep(results: seq<SingleResult>, j: nat)
    requires j < |results|
    ensures var id, c := results[j].id, |Select(results[..j], results[j].id)|;
      && |Select(results[..j + 1], id)| == c + 1
      && c < |Select(results, id)| && Select(results, id)[c] == results[j]
    ensures forall other :: other != results[j].id ==> Select(results[..j + 1], other) == Select(results[..j], other)
  {
    assert results[..j + 1][..j] == results[..j];
    SelectPrefix(results, results[j].id, j + 1);
  }

  /** Entry j answers the request whose rank equals the number of earlier entries with its id. */
  lemma LogStepAt(ids: seq<string>, results: seq<SingleResult>, latencyMs: int, j: nat, i: nat)
    requires j < |results| && i < |ids|
    ensures if ids[i] == results[j].id && Rank(ids, i) == |Select(results[..j], results[j].id)|
      then && LogAfter(ids, results, latencyMs, j)[i] == None
           && LogAfter(ids, results, latencyMs, j + 1)[i] == Some(ResultOf(results[j], latencyMs))
      else LogAfter(ids, results, latencyMs, j + 1)[i] == LogAfter(ids, results, latencyMs, j)[i]
  {
    SelectStep(results, j);
  }

  lemma LogStep(ids: seq<string>, results: seq<SingleResult>, latencyMs: int, j: nat)
    requires j < |results|
    ensures var id := results[j].id;
      var c, places := |Select(results[..j], id)|, Positions(ids, id);
      if c < |places|
      then && places[c] < |ids|
           && LogAfter(ids, results, latencyMs, j)[places[c]] == None
           && LogAfter(ids, results, latencyMs, j + 1)
              == LogAfter(ids, results, latencyMs, j)[places[c] := Some(ResultOf(results[j], latencyMs))]
      else LogAfter(ids, results, latencyMs, j + 1) == LogAfter(ids, results, latencyMs, j)
  {
    var id := results[j].id;
    var c, places := |Select(results[..j], id)|, Positions(ids, id);
    PositionsAreRanked(ids, id);
    forall i | 0 <= i < |ids|
      ensures ids[i] == id && Rank(ids, i) == c <==> c < |places| && places[c] == i
    {
      RankIsPosition(ids, i);
    }
    forall i | 0 <= i < |ids|
      ensures if c < |places| && places[c] == i
        then && LogAfter(ids, results, latencyMs, j)[i] == None
             && LogAfter(ids, results, latencyMs, j + 1)[i] == Some(ResultOf(results[j], latencyMs))
        else LogAfter(ids, results, latencyMs, j + 1)[i] == LogAfter(ids, results, latencyMs, j)[i]
    {
      LogStepAt(ids, results, latencyMs, j, i);
    }
  }

  /** Nothing sent yet. */
  function NothingSent(n: nat): seq<Option<Result>> {
    seq(n, _ => None)
  }

  // ---------- Entries the backend omitted ----------

  /**
   After the response: ids in `done` are settled, and of id `current` the first
   `m` unanswered requests have been told that their result is missing.
   */
  function LogMissing(ids: seq<string>, results: seq<SingleResult>, latencyMs: int, done: set<string>,
                      current: string, m: nat)
    : seq<Option<Result>>
  {
    seq(|ids|, i requires 0 <= i < |ids| =>
      if ids[i] in done || Rank(ids, i) < |Select(results, ids[i])| + if ids[i] == current then m else 0
      then Some(PairedResult(ids, results, latencyMs, i)) else None)
  }

  lemma LogMissingStart(ids: seq<string>, results: seq<SingleResult>, latencyMs: int, done: set<string>, a: string,
                        b: string)
    ensures LogMissing(ids, results, latencyMs, {}, a, 0) == LogAfter(ids, results, latencyMs, |results|)
    ensures LogMissing(ids, results, latencyMs, done, a, 0) == LogMissing(ids, results, latencyMs, done, b, 0)
  {
    assert results[..|results|] == results;
  }

  lemma LogMissingStep(ids: seq<string>, results: seq<SingleResult>, latencyMs: int, done: set<string>, id: string,
                       m: nat)
    requires id !in done && |Select(results, id)| + m < |Positions(ids, id)|
    ensures var i := Positions(ids, id)[|Select(results, id)| + m];
      var log := LogMissing(ids, results, latencyMs, done, id, m);
      && i < |ids| && log[i] == None
      && LogMissing(ids, results, latencyMs, done, id, m + 1) == log[i := Some(Error(MissingResult(id)))]
  {
    var n := |Select(results, id)| + m;
    PositionsAreRanked(ids, id);
    forall i | 0 <= i < |ids|
      ensures ids[i] == id && Rank(ids, i) == n <==> Positions(ids, id)[n] == i
    {
      RankIsPosition(ids, i);
    }
  }

  lemma LogMissingSettled(ids: seq<string>, results: seq<SingleResult>, latencyMs: int, done: set<string>,
                          id: string, m: nat)
    requires |Positions(ids, id)| <= |Select(results, id)| + m
    ensures LogMissing(ids, results, latencyMs, done, id, m) == LogMissing(ids, results, latencyMs, done + {id}, id, 0)
  {
    forall i | 0 <= i < |ids| && ids[i] == id
      ensures Rank(ids, i) < |Positions(ids, id)|
    {
      RankIsPosition(ids, i);
    }
  }

  /** Once every id is settled or was answered in full, the channels hold the pairing. */
  lemma LogMissingEnd(ids: seq<string>, results: seq<SingleResult>, latencyMs: int, done: set<string>, id: string)
    requires forall other :: other !in done ==> |Positions(ids, other)| <= |Select(results, other)|
    ensures LogMissing(ids, results, latencyMs, done, id, 0) == AllSent(Pairing(ids, results, latencyMs))
  {
    forall i | 0 <= i < |ids|
      ensures Rank(ids, i) < |Positions(ids, ids[i])|
    {
      RankIsPosition(ids, i);
    }
  }

  // ---------- Outcome counts ----------

  function Wins(log: seq<Option<Result>>): nat {
    if log == [] then 0 else (if log[0].Some? && log[0].value.Success? then 1 else 0) + Wins(log[1..])
  }

  function Losses(log: seq<Option<Result>>): nat {
    if log == [] then 0 else (if log[0].Some? && log[0].value.Error? then 1 else 0) + Losses(log[1..])
  }

  lemma {:induction false} CountsAfterSend(log: seq<Option<Result>>, i: nat, r: Result)
    requires i < |log| && log[i].None?
    ensures Wins(log[i := Some(r)]) == Wins(log) + if r.Success? then 1 else 0
    ensures Losses(log[i := Some(r)]) == Losses(log) + if r.Error? then 1 else 0
  {
    if i == 0 {
      assert log[i := Some(r)][1..] == log[1..];
    } else {
      assert log[i := Some(r)][1..] == log[1..][i - 1 := Some(r)];
      CountsAfterSend(log[1..], i - 1, r);
    }
  }

  lemma {:induction false} CountsAtStart(n: nat)
    ensures Wins(NothingSent(n)) == 0 && Losses(NothingSent(n)) == 0
  {
    if n > 0 {
      assert NothingSent(n)[1..] == NothingSent(n - 1);
      CountsAtStart(n - 1);
    }
  }

  lemma {:induction false} CountsSnoc(log: seq<Option<Result>>, o: Option<Result>)
    ensures Wins(log + [o]) == Wins(log) + if o.Some? && o.value.Success? then 1 else 0
    ensures Losses(log + [o]) == Losses(log) + if o.Some? && o.value.Error? then 1 else 0
  {
    if log == [] {
      assert [o][1..] == [] && log + [o] == [o];
    } else {
      assert (log + [o])[1..] == log[1..] + [o];
      CountsSnoc(log[1..], o);
    }
  }

  /** The first count is the number of channels holding a success. */
  lemma {:induction false} WinsAreSuccesses(log: seq<Option<Result>>)
    ensures Wins(log) == |set i: nat | i < |log| && log[i].Some? && log[i].value.Success?|
    decreases |log|
  {
    var places := set i: nat | i < |log| && log[i].Some? && log[i].value.Success?;
    if log == [] {
      assert places == {};
    } else {
      var n := |log| - 1;
      var init := log[..n];
      assert init + [log[n]] == log;
      CountsSnoc(init, log[n]);
      WinsAreSuccesses(init);
      assert places == (set i: nat | i < n && init[i].Some? && init[i].value.Success?)
        + if log[n].Some? && log[n].value.Success? then {n} else {};
    }
  }

  /** The second count is the number of channels holding an error. */
  lemma {:induction false} LossesAreErrors(log: seq<Option<Result>>)
    ensures Losses(log) == |set i: nat | i < |log| && log[i].Some? && log[i].value.Error?|
    decreases |log|
  {
    var places := set i: nat | i < |log| && log[i].Some? && log[i].value.Error?;
    if log == [] {
      assert places == {};
    } else {
      var n := |log| - 1;
      var init := log[..n];
      assert init + [log[n]] == log;
      CountsSnoc(init, log[n]);
      LossesAreErrors(init);
      assert places == (set i: nat | i < n && init[i].Some? && init[i].value.Error?)
        + if log[n].Some? && log[n].value.Error? then {n} else {};
    }
  }

  /** Before any entry is consumed nothing is sent or counted. */
  lemma LogStart(ids: seq<string>, results: seq<SingleResult>, latencyMs: int)
    ensures LogAfter(ids, results, latencyMs, 0) == NothingSent(|ids|)
    ensures Wins(LogAfter(ids, results, latencyMs, 0)) == 0 && Losses(LogAfter(ids, results, latencyMs, 0)) == 0
  {
    assert results[..0] == [];
    assert LogAfter(ids, results, latencyMs, 0) == NothingSent(|ids|);
    CountsAtStart(|ids|);
  }

  function AllSent(results: seq<Result>): seq<Option<Result>> {
    seq(|results|, i requires 0 <= i < |results| => Some(results[i]))
  }

  lemma {:induction false} CountsAtEnd(results: seq<Result>)
    ensures Wins(AllSent(results)) + Losses(AllSent(results)) == |results|
  {
    if results != [] {
      assert AllSent(results)[1..] == AllSent(results[1..]);
      CountsAtEnd(results[1..]);
    }
  }

  lemma {:induction false} AllErrors(results: seq<Result>)
    requires forall i :: 0 <= i < |results| ==> results[i].Error?
    ensures Wins(AllSent(results)) == 0
  {
    if results != [] {
      assert AllSent(results)[1..] == AllSent(results[1..]);
      AllErrors(results[1..]);
    }
  }

  // ---------- A whole flush ----------

  /** The batch positions whose context is still live. */
  function Live(ctxErr: seq<Option<string>>): seq<nat> {
    if ctxErr == [] then []
    else Live(ctxErr[..|ctxErr| - 1]) + if ctxErr[|ctxErr| - 1].None? then [|ctxErr| - 1] else []
  }

  lemma {:induction false} LiveInRange(ctxErr: seq<Option<string>>)
    ensures forall a :: 0 <= a < |Live(ctxErr)| ==> Live(ctxErr)[a] < |ctxErr| && ctxErr[Live(ctxErr)[a]].None?
    ensures forall a, b :: 0 <= a < b < |Live(ctxErr)| ==> Live(ctxErr)[a] < Live(ctxErr)[b]
  {
    if ctxErr != [] {
      LiveInRange(ctxErr[..|ctxErr| - 1]);
    }
  }

  /** A live request's place among the live ones. */
  lemma {:induction false} LiveRank(ctxErr: seq<Option<string>>, i: nat)
    requires i < |ctxErr| && ctxErr[i].None?
    ensures |Live(ctxErr[..i])| < |Live(ctxErr)| && Live(ctxErr)[|Live(ctxErr[..i])|] == i
  {
    var n := |ctxErr| - 1;
    if i < n {
      LiveRank(ctxErr[..n], i);
      assert ctxErr[..n][..i] == ctxErr[..i];
    }
  }

  /** The requests that are sent to the backend. */
  function Payload(items: seq<Item>, ctxErr: seq<Option<string>>): (payload: seq<Item>)
    requires |items| == |ctxErr|
    ensures |payload| == |Live(ctxErr)|
  {
    LiveInRange(ctxErr);
    seq(|Live(ctxErr)|, a requires 0 <= a < |Live(ctxErr)| => items[Live(ctxErr)[a]])
  }

  function IdsOf(items: seq<Item>): seq<string> {
    seq(|items|, i requires 0 <= i < |items| => items[i].id)
  }

  function SameForAll(n: nat, failure: Failure): seq<Result> {
    seq(n, _ => Error(failure))
  }

  /** What the live requests receive, given how the exchange went. */
  function Resolve(items: seq<Item>, exchange: Exchange, latencyMs: int): (out: seq<Result>)
    ensures |out| == |items|
  {
    match exchange
    case MarshalFailed(detail) => SameForAll(|items|, ResponseInvalid(detail))
    case RequestNotBuilt(detail) => SameForAll(|items|, ResponseInvalid(detail))
    case TransportFailed(detail) => SameForAll(|items|, Unavailable(detail))
    case Response(status, body, decoded) =>
      if status < 200 || status >= 300 then SameForAll(|items|, Unavailable(body))
      else match decoded
        case None => SameForAll(|items|, ResponseInvalid(body))
        case Some(results) => Pairing(IdsOf(items), results, latencyMs)
  }

  /** Nothing usable came back: every live request gets the same error. */
  predicate WholeBatchFails(exchange: Exchange) {
    !exchange.Response? || exchange.status < 200 || exchange.status >= 300 || exchange.decoded.None?
  }

  /** The batch-size observation of a call, made only once the backend has been called. */
  function Reached(exchange: Exchange, n: nat): seq<nat> {
    if exchange.MarshalFailed? || exchange.RequestNotBuilt? then [] else [n]
  }

  function Observed(payload: seq<Item>, backend: Backend): seq<nat> {
    if payload == [] then [] else Reached(backend(payload), |payload|)
  }

  /** What the live requests of a batch receive. */
  function Answers(items: seq<Item>, ctxErr: seq<Option<string>>, backend: Backend, latencyMs: int): (out: seq<Result>)
    requires |items| == |ctxErr|
    ensures |out| == |Live(ctxErr)|
  {
    Resolve(Payload(items, ctxErr), backend(Payload(items, ctxErr)), latencyMs)
  }

  /** What every request of a batch receives. */
  function FlushOutcome(items: seq<Item>, ctxErr: seq<Option<string>>, backend: Backend, latencyMs: int): seq<Result>
    requires |items| == |ctxErr|
  {
    var answers := Answers(items, ctxErr, backend, latencyMs);
    seq(|items|, i requires 0 <= i < |items| =>
      if ctxErr[i].Some? then Error(ContextDone(ctxErr[i].value))
      else
        LiveRank(ctxErr, i);
        answers[|Live(ctxErr[..i])|])
  }

  // ---------- Theorems about the pairing ----------

  /** The outcomes a response holds for one id, in arrival order. */
  function OutcomesFor(results: seq<SingleResult>, id: string, latencyMs: int): seq<Result> {
    var mine := Select(results, id);
    seq(|mine|, k requires 0 <= k < |mine| => ResultOf(mine[k], latencyMs))
  }

  function Copies(id: string, n: nat): seq<string> {
    seq(n, _ => id)
  }

  lemma {:induction false} RankOfCopy(id: string, n: nat)
    ensures |Positions(Copies(id, n), id)| == n
  {
    if n > 0 {
      assert Copies(id, n)[..n - 1] == Copies(id, n - 1);
      RankOfCopy(id, n - 1);
    }
  }

  lemma PairedCopy(id: string, n: nat, results: seq<SingleResult>, latencyMs: int, k: nat)
    requires k < n
    ensures Pairing(Copies(id, n), results, latencyMs)[k] ==
      if k < |OutcomesFor(results, id, latencyMs)| then OutcomesFor(results, id, latencyMs)[k]
      else Error(MissingResult(id))
  {
    RankOfCopy(id, k);
    assert Copies(id, n)[..k] == Copies(id, k);
  }

  lemma SamePairingsSameOutcomes(a: seq<SingleResult>, b: seq<SingleResult>, id: string, latencyMs: int)
    requires forall ids :: Pairing(ids, a, latencyMs) == Pairing(ids, b, latencyMs)
    ensures OutcomesFor(a, id, latencyMs) == OutcomesFor(b, id, latencyMs)
  {
    var x, y := OutcomesFor(a, id, latencyMs), OutcomesFor(b, id, latencyMs);
    var n := |x| + |y| + 1;
    assert Pairing(Copies(id, n), a, latencyMs) == Pairing(Copies(id, n), b, latencyMs);
    PairedCopy(id, n, a, latencyMs, |x|);
    PairedCopy(id, n, b, latencyMs, |x|);
    PairedCopy(id, n, a, latencyMs, |y|);
    PairedCopy(id, n, b, latencyMs, |y|);
    assert |x| == |y|;
    forall k | 0 <= k < |x|
      ensures x[k] == y[k]
    {
      PairedCopy(id, n, a, latencyMs, k);
      PairedCopy(id, n, b, latencyMs, k);
    }
  }

  /**
   Two responses deliver the same results to every possible batch exactly if they
   hold the same outcomes, in the same order, for each id taken by itself: the
   order of entries across ids is irrelevant, and nothing else is.
   */
  lemma OnlyPerIdOrderMatters(a: seq<SingleResult>, b: seq<SingleResult>, latencyMs: int)
    ensures (forall ids :: Pairing(ids, a, latencyMs) == Pairing(ids, b, latencyMs)) <==>
            (forall id :: OutcomesFor(a, id, latencyMs) == OutcomesFor(b, id, latencyMs))
  {
    if forall ids :: Pairing(ids, a, latencyMs) == Pairing(ids, b, latencyMs) {
      forall id
        ensures OutcomesFor(a, id, latencyMs) == OutcomesFor(b, id, latencyMs)
      {
        SamePairingsSameOutcomes(a, b, id, latencyMs);
      }
    }
    if forall id :: OutcomesFor(a, id, latencyMs) == OutcomesFor(b, id, latencyMs) {
      forall ids
        ensures Pairing(ids, a, latencyMs) == Pairing(ids, b, latencyMs)
      {
        forall i | 0 <= i < |ids|
          ensures PairedResult(ids, a, latencyMs, i) == PairedResult(ids, b, latencyMs, i)
        {
          assert OutcomesFor(a, ids[i], latencyMs) == OutcomesFor(b, ids[i], latencyMs);
          var k := Rank(ids, i);
          assert k < |Select(a, ids[i])| ==>
            OutcomesFor(a, ids[i], latencyMs)[k] == OutcomesFor(b, ids[i], latencyMs)[k];
        }
      }
    }
  }

  lemma {:induction false} PositionsCount(ids: seq<string>, id: string)
    ensures |Positions(ids, id)| == |set h: nat | h < |ids| && ids[h] == id|
  {
    var places := set h: nat | h < |ids| && ids[h] == id;
    if ids == [] {
      assert places == {};
    } else {
      var n := |ids| - 1;
      PositionsCount(ids[..n], id);
      assert places == (set h: nat | h < n && ids[..n][h] == id) + if ids[n] == id then {n} else {};
    }
  }

  lemma {:induction false} SelectCount(results: seq<SingleResult>, id: string)
    ensures |Select(results, id)| == |set h: nat | h < |results| && results[h].id == id|
  {
    var places := set h: nat | h < |results| && results[h].id == id;
    if results == [] {
      assert places == {};
    } else {
      var n := |results| - 1;
      SelectCount(results[..n], id);
      assert places == (set h: nat | h < n && results[..n][h].id == id) + if results[n].id == id then {n} else {};
    }
  }

  /** How many of the first n requests carry an id, and how many of the first n entries. */
  function RequestsBefore(ids: seq<string>, n: nat, id: string): nat {
    |set h: nat | h < n && h < |ids| && ids[h] == id|
  }

  function EntriesBefore(results: seq<SingleResult>, n: nat, id: string): nat {
    |set h: nat | h < n && h < |results| && results[h].id == id|
  }

  lemma CountsAgree(ids: seq<string>, i: nat, results: seq<SingleResult>, j: nat, id: string)
    requires i <= |ids| && j <= |results|
    ensures |Positions(ids[..i], id)| == RequestsBefore(ids, i, id)
    ensures |Select(results[..j], id)| == EntriesBefore(results, j, id)
  {
    PositionsCount(ids[..i], id);
    SelectCount(results[..j], id);
    assert (set h: nat | h < |ids[..i]| && ids[..i][h] == id) == set h: nat | h < i && h < |ids| && ids[h] == id;
    assert (set h: nat | h < |results[..j]| && results[..j][h].id == id)
      == set h: nat | h < j && h < |results| && results[h].id == id;
  }

  /**
   Request i receives entry j exactly as it stands if both carry the same id and
   are preceded by equally many of that id: the entry's error if it has one, else
   its output with the flush's latency.
   */
  lemma EntryReachesRequest(ids: seq<string>, results: seq<SingleResult>, latencyMs: int, i: nat, j: nat)
    requires i < |ids| && j < |results| && results[j].id == ids[i]
    requires EntriesBefore(results, j, ids[i]) == RequestsBefore(ids, i, ids[i])
    ensures Pairing(ids, results, latencyMs)[i] ==
      if results[j].error != "" then Error(BackendItem(results[j].error)) else Success(results[j].output, latencyMs)
  {
    CountsAgree(ids, i, results, j, ids[i]);
    SelectStep(results, j);
  }

  /** A request preceded by at least as many of its id as there are entries is told that its result is missing. */
  lemma RequestWithoutEntry(ids: seq<string>, results: seq<SingleResult>, latencyMs: int, i: nat)
    requires i < |ids| && EntriesBefore(results, |results|, ids[i]) <= RequestsBefore(ids, i, ids[i])
    ensures Pairing(ids, results, latencyMs)[i] == Error(MissingResult(ids[i]))
  {
    CountsAgree(ids, i, results, |results|, ids[i]);
    assert results[..|results|] == results;
  }

  /** An entry is used at most once: a given response entry reaches exactly one request, or none. */
  lemma EntriesAreNotShared(ids: seq<string>, i: nat, j: nat)
    requires i < |ids| && j < |ids| && i != j && ids[i] == ids[j]
    ensures Rank(ids, i) != Rank(ids, j)
  {
    RankIsPosition(ids, i);
    RankIsPosition(ids, j);
  }

  /** No context has ended. */
  function NoneDone(n: nat): seq<Option<string>> {
    seq(n, _ => None)
  }

  lemma {:induction false} AllLive(n: nat)
    ensures |Live(NoneDone(n))| == n
    ensures forall i :: 0 <= i < |Live(NoneDone(n))| ==> Live(NoneDone(n))[i] == i
  {
    if n > 0 {
      assert NoneDone(n)[..n - 1] == NoneDone(n - 1);
      AllLive(n - 1);
    }
  }

  /** The payload is made of the live requests, each once and in batch order, and of nothing else. */
  lemma PayloadIsLive(items: seq<Item>, ctxErr: seq<Option<string>>)
    requires |items| == |ctxErr|
    ensures var payload, at := Payload(items, ctxErr), Live(ctxErr);
      && |payload| == |at|
      && (forall a :: 0 <= a < |at| ==> at[a] < |items| && ctxErr[at[a]].None? && payload[a] == items[at[a]])
      && (forall a, b :: 0 <= a < b < |at| ==> at[a] < at[b])
      && (forall i: nat :: i < |items| ==> (i in at <==> ctxErr[i].None?))
  {
    LiveInRange(ctxErr);
    forall i: nat | i < |items| && ctxErr[i].None?
      ensures i in Live(ctxErr)
    {
      LiveRank(ctxErr, i);
    }
  }

  /**
   Sibling isolation: a live request receives what it would have received had
   the cancelled ones never been in the batch.
   */
  lemma CancelledSiblingsDoNotMatter(items: seq<Item>, ctxErr: seq<Option<string>>, backend: Backend,
                                     latencyMs: int, i: nat)
    requires |items| == |ctxErr| && i < |items| && ctxErr[i].None?
    ensures var payload, a := Payload(items, ctxErr), |Live(ctxErr[..i])|;
      && a < |payload| && payload[a] == items[i]
      && FlushOutcome(items, ctxErr, backend, latencyMs)[i]
         == FlushOutcome(payload, NoneDone(|payload|), backend, latencyMs)[a]
  {
    LiveRank(ctxErr, i);
    var payload, a := Payload(items, ctxErr), |Live(ctxErr[..i])|;
    AllLive(|payload|);
    AllLive(a);
    assert NoneDone(|payload|)[..a] == NoneDone(a);
    assert Payload(payload, NoneDone(|payload|)) == payload;
  }
  /**
   Which failure an exchange means for a live request, by its kind: an unreachable
   backend and every status outside 200 to 299 read as unavailable, a payload or
   request that could not be built and a body that could not be decoded as an
   invalid response; only a decoded list is paired with the requests. A request
   whose context has ended gets that error whatever the exchange.
   */
  lemma FailureByExchange(items: seq<Item>, ctxErr: seq<Option<string>>, backend: Backend, latencyMs: int, i: nat)
    requires |items| == |ctxErr| && i < |items|
    ensures var r, payload := FlushOutcome(items, ctxErr, backend, latencyMs)[i], Payload(items, ctxErr);
      if ctxErr[i].Some? then r == Error(ContextDone(ctxErr[i].value))
      else match backend(payload)
        case MarshalFailed(detail) => r == Error(ResponseInvalid(detail))
        case RequestNotBuilt(detail) => r == Error(ResponseInvalid(detail))
        case TransportFailed(detail) => r == Error(Unavailable(detail))
        case Response(status, body, decoded) =>
          if !(200 <= status <= 299) then r == Error(Unavailable(body))
          else if decoded.None? then r == Error(ResponseInvalid(body))
          else
            var a := |Live(ctxErr[..i])|;
            a < |payload| && r == Pairing(IdsOf(payload), decoded.value, latencyMs)[a]
  {
    if ctxErr[i].None? {
      LiveRank(ctxErr, i);
    }
  }

  /** A batch size is observed, once and with the number of live requests, exactly if the backend was called. */
  lemma SizeObservedIff(items: seq<Item>, ctxErr: seq<Option<string>>, backend: Backend)
    requires |items| == |ctxErr|
    ensures var live, exchange := |set i: nat | i < |ctxErr| && ctxErr[i].None?|, backend(Payload(items, ctxErr));
      Observed(Payload(items, ctxErr), backend) ==
        if live > 0 && (exchange.TransportFailed? || exchange.Response?) then [live] else []
  {
    LiveCount(ctxErr);
  }

  lemma {:induction false} LiveCount(ctxErr: seq<Option<string>>)
    ensures |Live(ctxErr)| == |set i: nat | i < |ctxErr| && ctxErr[i].None?|
  {
    var places := set i: nat | i < |ctxErr| && ctxErr[i].None?;
    if ctxErr == [] {
      assert places == {};
    } else {
      var n := |ctxErr| - 1;
      LiveCount(ctxErr[..n]);
      assert places == (set i: nat | i < n && ctxErr[..n][i].None?) + if ctxErr[n].None? then {n} else {};
    }
  }
}
