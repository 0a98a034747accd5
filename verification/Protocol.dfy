/**
 The concurrent life of the batcher as a transition system: clients submitting,
 waiting and leaving, one Stop, the main loop, the flush goroutines, the QPS
 tracker and the breaker, interleaved in any order. Every send on a result
 channel is enabled only while its one slot is free.
 */
module Protocol {
  type Req = nat

  const CAPACITY := 1000

  datatype Verdict = Admitted | CircuitOpen | AfterStop | QueueFull

  /** Where a caller is, from entering Submit to the end of its wait. */
  datatype Client =
    | Arrived                      // about to read the breaker
    | Passed                       // saw it closed
    | Locked                       // holds the read lock
    | Cleared                      // holds the read lock and saw stopped == false
    | Deciding(verdict: Verdict)   // verdict reached, read lock still held
    | Rejected(verdict: Verdict)
    | Waiting
    | Received
    | Left

  /** Where the goroutine calling Stop is. */
  datatype Stopper = NotStopping | WriteLocked | Flagged | Unlocked | Closed | Returned

  datatype MainLoop =
    | NotStarted
    | Peeking
    | Collecting(batch: seq<Req>)
    | Collected(batch: seq<Req>)
    | Draining
    | Failing(req: Req)            // taken off the queue by the drain, not answered yet
    | Exited

  datatype Phase =
    | Filtering(todo: seq<Req>, live: seq<Req>)
    | Dropping(todo: seq<Req>, live: seq<Req>)   // saw the context of the first of todo ended
    | Calling(live: seq<Req>)
    | FanningOut(rest: seq<Req>, onlyErrors: bool)
    | Finished

  datatype Flush = Flush(batch: seq<Req>, phase: Phase)

  datatype Outcome = ContextError | DrainError | Answer(ok: bool)

  datatype Delivery = Delivery(req: Req, outcome: Outcome)

  datatype State = State(
    maxBatch: int,
    breakerOpen: bool,
    clients: map<Req, Client>,
    cancelled: set<Req>,
    stopper: Stopper,
    stopped: bool,
    closed: bool,
    queue: seq<Req>,
    main: MainLoop,
    tracking: bool,
    flushes: seq<Flush>,
    accepted: seq<Req>,
    drained: seq<Req>,
    sent: seq<Delivery>,
    stats: Stats)

  /**
   Metrics: per-request outcomes, the sum of the batch-size observations, and, for
   bookkeeping, live requests whose flush observed no size and cancelled ones.
   */
  datatype Stats = Stats(success: nat, errors: nat, batchSum: nat, unobserved: nat, cancelledAtFlush: nat)

  function Init(maxBatch: int): State {
    State(maxBatch, false, map[], {}, NotStopping, false, false, [], NotStarted, false, [], [], [], [],
          Stats(0, 0, 0, 0, 0))
  }

  // ---------- Result channels ----------

  /** How often a result has been sent to a request. */
  function Sends(sent: seq<Delivery>, r: Req): nat {
    if sent == [] then 0
    else Sends(sent[..|sent| - 1], r) + if sent[|sent| - 1].req == r then 1 else 0
  }

  /** The one-slot channel can take a result without blocking. */
  predicate SlotFree(s: State, r: Req) {
    var taken := if r in s.clients && s.clients[r] == Received then 1 else 0;
    Sends(s.sent, r) <= taken
  }

  function Counted(stats: Stats, o: Outcome): Stats {
    if o == Answer(true) then stats.(success := stats.success + 1) else stats.(errors := stats.errors + 1)
  }

  // ---------- Clients ----------
  // Submit (internal/batcher/batcher.go:144-171) and the wait in Infer (internal/grpcserver/server.go:120-151).

  datatype ClientStep = Arrive | Cancel | CheckBreaker | RLock | CheckStopped | Enqueue | RUnlock | Receive | Leave

  predicate HoldsReadLock(c: Client) {
    c.Locked? || c.Cleared? || c.Deciding?
  }

  predicate WriterHolds(s: State) {
    s.stopper == WriteLocked || s.stopper == Flagged
  }

  predicate ClientEnabled(s: State, r: Req, a: ClientStep) {
    (r in s.clients <==> a != Arrive) &&
    match a
    case Arrive => true
    case Cancel => true
    case CheckBreaker => s.clients[r] == Arrived
    case RLock => s.clients[r] == Passed && !WriterHolds(s)
    case CheckStopped => s.clients[r] == Locked
    case Enqueue => s.clients[r] == Cleared
    case RUnlock => s.clients[r].Deciding?
    case Receive => s.clients[r] == Waiting && Sends(s.sent, r) > 0
    case Leave => s.clients[r] == Waiting && r in s.cancelled
  }

  function NextClient(s: State, r: Req, a: ClientStep): Client
    requires ClientEnabled(s, r, a)
  {
    match a
    case Arrive => Arrived
    case Cancel => s.clients[r]
    case CheckBreaker => if s.breakerOpen then Rejected(CircuitOpen) else Passed
    case RLock => Locked
    case CheckStopped => if s.stopped then Deciding(AfterStop) else Cleared
    case Enqueue => Deciding(if |s.queue| < CAPACITY then Admitted else QueueFull)
    case RUnlock => if s.clients[r].verdict == Admitted then Waiting else Rejected(s.clients[r].verdict)
    case Receive => Received
    case Leave => Left
  }

  function ClientDo(s: State, r: Req, a: ClientStep): State
    requires ClientEnabled(s, r, a)
  {
    var admitted := if a == Enqueue && |s.queue| < CAPACITY then [r] else [];
    s.(clients := s.clients[r := NextClient(s, r, a)],
       cancelled := if a == Cancel then s.cancelled + {r} else s.cancelled,
       queue := s.queue + admitted,
       accepted := s.accepted + admitted)
  }

  // ---------- Stop (internal/batcher/batcher.go:227-235) ----------

  datatype StopStep = Lock | Flag | Unlock | Close | WaitReturns

  /** The WaitGroup counts the QPS tracker and the flushes, but not the main loop. */
  predicate WaitGroupIsZero(s: State) {
    !s.tracking && AllFinished(s.flushes)
  }

  predicate AllFinished(fs: seq<Flush>) {
    forall i :: 0 <= i < |fs| ==> fs[i].phase == Finished
  }

  predicate StopEnabled(s: State, a: StopStep) {
    match a
    case Lock => s.stopper == NotStopping && forall r :: r in s.clients ==> !HoldsReadLock(s.clients[r])
    case Flag => s.stopper == WriteLocked
    case Unlock => s.stopper == Flagged
    case Close => s.stopper == Unlocked
    case WaitReturns => s.stopper == Closed && WaitGroupIsZero(s)
  }

  function NextStopper(a: StopStep): Stopper {
    match a
    case Lock => WriteLocked
    case Flag => Flagged
    case Unlock => Unlocked
    case Close => Closed
    case WaitReturns => Returned
  }

  function StopDo(s: State, a: StopStep): State {
    s.(stopper := NextStopper(a), stopped := s.stopped || a == Flag, closed := s.closed || a == Close)
  }

  // ---------- Main loop: Start, collectBatch and the drain (internal/batcher/batcher.go:175-258, 427-448) ----------

  datatype MainStep = Start | Peek | Take | Deadline | SeeStop | Dispatch | DrainTake | DrainSend | DrainDone

  predicate MainEnabled(s: State, a: MainStep) {
    match a
    case Start => s.main == NotStarted
    case Peek => s.main == Peeking
    case Take => s.main.Collecting? && s.queue != []
    case Deadline => s.main.Collecting?
    case SeeStop => s.main.Collecting? && s.closed
    case Dispatch => s.main.Collected?
    case DrainTake => s.main == Draining && s.queue != []
    case DrainSend => s.main.Failing? && SlotFree(s, s.main.req)
    case DrainDone => s.main == Draining && s.queue == []
  }

  function NextMain(s: State, a: MainStep): MainLoop
    requires MainEnabled(s, a)
  {
    match a
    case Start => Peeking
    case Peek => if s.closed then Draining else Collecting([])
    case Take =>
      var batch := s.main.batch + [s.queue[0]];
      if |batch| >= s.maxBatch then Collected(batch) else Collecting(batch)
    case Deadline => Collected(s.main.batch)
    case SeeStop => Collected(s.main.batch)
    case Dispatch => if s.main.batch == [] && s.closed then Draining else Peeking
    case DrainTake => Failing(s.queue[0])
    case DrainSend => Draining
    case DrainDone => Exited
  }

  function MainDo(s: State, a: MainStep): State
    requires MainEnabled(s, a)
  {
    s.(main := NextMain(s, a),
       tracking := s.tracking || a == Start,
       queue := if a == Take || a == DrainTake then s.queue[1..] else s.queue,
       drained := if a == DrainSend then s.drained + [s.main.req] else s.drained,
       sent := if a == DrainSend then s.sent + [Delivery(s.main.req, DrainError)] else s.sent,
       stats := if a == DrainSend then Counted(s.stats, DrainError) else s.stats,
       flushes := if a == Dispatch && s.main.batch != []
                  then s.flushes + [Flush(s.main.batch, Filtering(s.main.batch, []))] else s.flushes)
  }

  // ---------- Flush goroutines (internal/batcher/batcher.go:211-214, 271-415) ----------

  datatype FlushStep = Check | Drop | Call | EncodeFails | CallReturns(onlyErrors: bool) | Send(k: nat, ok: bool)

  predicate FlushEnabled(s: State, i: nat, a: FlushStep) {
    i < |s.flushes| &&
    var phase := s.flushes[i].phase;
    match a
    case Check => phase.Filtering? && phase.todo != []
    case Drop => phase.Dropping? && phase.todo != [] && SlotFree(s, phase.todo[0])
    case Call => phase.Filtering? && phase.todo == []
    case EncodeFails => phase.Calling?
    case CallReturns(_) => phase.Calling?
    case Send(k, ok) =>
      phase.FanningOut? && k < |phase.rest| && (phase.onlyErrors ==> !ok) && SlotFree(s, phase.rest[k])
  }

  function Without(xs: seq<Req>, k: nat): seq<Req>
    requires k < |xs|
  {
    xs[..k] + xs[k + 1..]
  }

  /** Where the flush goes next. */
  function NextPhase(s: State, i: nat, a: FlushStep): Phase
    requires FlushEnabled(s, i, a)
  {
    var phase := s.flushes[i].phase;
    match a
    case Check =>
      var r := phase.todo[0];
      if r in s.cancelled then Dropping(phase.todo, phase.live) else Filtering(phase.todo[1..], phase.live + [r])
    case Drop => Filtering(phase.todo[1..], phase.live)
    case Call => if phase.live == [] then Finished else Calling(phase.live)
    case EncodeFails => FanningOut(phase.live, true)
    case CallReturns(onlyErrors) => FanningOut(phase.live, onlyErrors)
    case Send(k, _) =>
      var rest := Without(phase.rest, k);
      if rest == [] then Finished else FanningOut(rest, phase.onlyErrors)
  }

  /** What the step sends. */
  function Outgoing(s: State, i: nat, a: FlushStep): seq<Delivery>
    requires FlushEnabled(s, i, a)
  {
    var phase := s.flushes[i].phase;
    match a
    case Drop => [Delivery(phase.todo[0], ContextError)]
    case Send(k, ok) => [Delivery(phase.rest[k], Answer(ok))]
    case _ => []
  }

  function StatsAfter(s: State, i: nat, a: FlushStep): Stats
    requires FlushEnabled(s, i, a)
  {
    var phase := s.flushes[i].phase;
    match a
    case Check => s.stats
    case Drop => Counted(s.stats, ContextError).(cancelledAtFlush := s.stats.cancelledAtFlush + 1)
    case EncodeFails => s.stats.(unobserved := s.stats.unobserved + |phase.live|)
    case CallReturns(_) => s.stats.(batchSum := s.stats.batchSum + |phase.live|)
    case Send(_, ok) => Counted(s.stats, Answer(ok))
    case Call => s.stats
  }

  function FlushDo(s: State, i: nat, a: FlushStep): State
    requires FlushEnabled(s, i, a)
  {
    s.(flushes := s.flushes[i := s.flushes[i].(phase := NextPhase(s, i, a))],
       sent := s.sent + Outgoing(s, i, a),
       stats := StatsAfter(s, i, a))
  }

  // ---------- Steps and runs ----------

  datatype Step =
    | Guard(open: bool)
    | TrackerExits
    | OfClient(r: Req, c: ClientStep)
    | OfStop(p: StopStep)
    | OfMain(m: MainStep)
    | OfFlush(i: nat, f: FlushStep)

  predicate Enabled(s: State, a: Step) {
    match a
    case Guard(_) => true
    case TrackerExits => s.tracking && s.closed
    case OfClient(r, c) => ClientEnabled(s, r, c)
    case OfStop(p) => StopEnabled(s, p)
    case OfMain(m) => MainEnabled(s, m)
    case OfFlush(i, f) => FlushEnabled(s, i, f)
  }

  /** One step; a step that is not enabled does nothing. */
  function Do(s: State, a: Step): State {
    if !Enabled(s, a) then s
    else match a
      case Guard(open) => s.(breakerOpen := open)
      case TrackerExits => s.(tracking := false)
      case OfClient(r, c) => ClientDo(s, r, c)
      case OfStop(p) => StopDo(s, p)
      case OfMain(m) => MainDo(s, m)
      case OfFlush(i, f) => FlushDo(s, i, f)
  }

  /** The state after a schedule. Schedules range over all interleavings. */
  function Exec(s: State, run: seq<Step>): State
    decreases |run|
  {
    if run == [] then s else Do(Exec(s, run[..|run| - 1]), run[|run| - 1])
  }

  /** A step of the batcher's own goroutines or of Stop, not of a client or of the breaker. */
  predicate MachineStep(a: Step) {
    a.OfMain? || a.OfFlush? || a.TrackerExits? || a.OfStop?
  }

  /** The main loop has returned and every flush is done. */
  predicate Quiescent(s: State) {
    s.main == Exited && AllFinished(s.flushes)
  }
}
