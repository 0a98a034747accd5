/**
 What every step of the batcher protocol keeps, and the safety theorems that
 follow for every schedule.
 */
module ProtocolSafety {
  import opened Protocol

  // ---------- Where requests are ----------

  function Occurrences(xs: seq<Req>, r: Req): nat {
    multiset(xs)[r]
  }

  function PhasePending(p: Phase, r: Req): nat {
    match p
    case Filtering(todo, live) => Occurrences(todo, r) + Occurrences(live, r)
    case Dropping(todo, live) => Occurrences(todo, r) + Occurrences(live, r)
    case Calling(live) => Occurrences(live, r)
    case FanningOut(rest, _) => Occurrences(rest, r)
    case Finished => 0
  }

  function PendingIn(fs: seq<Flush>, r: Req): nat {
    if fs == [] then 0 else PendingIn(fs[..|fs| - 1], r) + PhasePending(fs[|fs| - 1].phase, r)
  }

  /** What the main loop has taken off the queue: the batch it is assembling, or the request it is failing. */
  function InHand(m: MainLoop): seq<Req> {
    match m
    case Collecting(batch) => batch
    case Collected(batch) => batch
    case Failing(req) => [req]
    case _ => []
  }

  /** How often a request is queued, in hand, or in a flush that has not answered it yet. */
  function Pending(s: State, r: Req): nat {
    Occurrences(s.queue, r) + Occurrences(InHand(s.main), r) + PendingIn(s.flushes, r)
  }

  /** All batches dispatched so far, one after the other. */
  function Batches(fs: seq<Flush>): seq<Req> {
    if fs == [] then [] else Batches(fs[..|fs| - 1]) + fs[|fs| - 1].batch
  }

  lemma {:induction false} PendingUpdate(fs: seq<Flush>, i: nat, f: Flush, r: Req)
    requires i < |fs|
    ensures PendingIn(fs[i := f], r) + PhasePending(fs[i].phase, r) == PendingIn(fs, r) + PhasePending(f.phase, r)
  {
    var n := |fs| - 1;
    if i < n {
      PendingUpdate(fs[..n], i, f, r);
      assert fs[i := f][..n] == fs[..n][i := f];
    } else {
      assert fs[i := f][..n] == fs[..n];
    }
  }

  lemma {:induction false} BatchesUpdate(fs: seq<Flush>, i: nat, f: Flush)
    requires i < |fs| && f.batch == fs[i].batch
    ensures Batches(fs[i := f]) == Batches(fs)
  {
    var n := |fs| - 1;
    if i < n {
      BatchesUpdate(fs[..n], i, f);
      assert fs[i := f][..n] == fs[..n][i := f];
    } else {
      assert fs[i := f][..n] == fs[..n];
    }
  }

  lemma FlushAppended(fs: seq<Flush>, f: Flush, r: Req)
    ensures PendingIn(fs + [f], r) == PendingIn(fs, r) + PhasePending(f.phase, r)
    ensures Batches(fs + [f]) == Batches(fs) + f.batch
  {
    assert (fs + [f])[..|fs|] == fs;
  }

  lemma SentOneMore(sent: seq<Delivery>, d: Delivery, r: Req)
    ensures Sends(sent + [d], r) == Sends(sent, r) + if d.req == r then 1 else 0
  {
    assert (sent + [d])[..|sent|] == sent;
  }

  lemma OneMore(xs: seq<Req>, x: Req, r: Req)
    ensures Occurrences(xs + [x], r) == Occurrences(xs, r) + if x == r then 1 else 0
  {
  }

  lemma HeadTail(xs: seq<Req>, r: Req)
    requires xs != []
    ensures Occurrences(xs, r) == Occurrences(xs[1..], r) + if xs[0] == r then 1 else 0
  {
    assert xs == [xs[0]] + xs[1..];
  }

  lemma WithoutOne(xs: seq<Req>, k: nat, r: Req)
    requires k < |xs|
    ensures Occurrences(xs, r) == Occurrences(Without(xs, k), r) + if xs[k] == r then 1 else 0
    ensures |Without(xs, k)| == |xs| - 1
  {
    assert xs == xs[..k] + [xs[k]] + xs[k + 1..];
  }

  // ---------- The invariant ----------

  /**
   The write lock excludes readers, `stopped` and `stopCh` follow Stop's progress,
   and the tracker runs from the start of the main loop until stopCh is closed.
   */
  ghost predicate LockInv(s: State) {
    && (WriterHolds(s) ==> forall r :: r in s.clients ==> !HoldsReadLock(s.clients[r]))
    && (s.stopped <==> s.stopper !in {NotStopping, WriteLocked})
    && (s.closed <==> s.stopper in {Closed, Returned})
    && (s.stopped ==> forall r :: r in s.clients ==> s.clients[r] != Cleared)
    && (s.main.NotStarted? || s.closed || s.tracking)
  }

  predicate HasEntered(c: Client) {
    c == Deciding(Admitted) || c == Waiting || c == Received || c == Left
  }

  /** Exactly the callers that were told so have been accepted, each once. */
  ghost predicate AcceptedRightly(s: State, q: Req) {
    && Occurrences(s.accepted, q) == (if q in s.clients && HasEntered(s.clients[q]) then 1 else 0)
    && (q in s.clients ==> s.clients[q] != Rejected(Admitted))
  }

  ghost predicate AcceptInv(s: State) {
    forall q :: AcceptedRightly(s, q)
  }

  /** Every accepted request has been answered or is pending, never both. */
  ghost predicate Balanced(s: State, q: Req) {
    Occurrences(s.accepted, q) == Sends(s.sent, q) + Pending(s, q)
  }

  ghost predicate OnceInv(s: State) {
    forall q :: Balanced(s, q)
  }

  /** Dispatched batches, drained requests, what the main loop has in hand, the queue. */
  function InOrder(s: State): seq<Req> {
    Batches(s.flushes) + s.drained + InHand(s.main) + s.queue
  }

  predicate AtDrain(m: MainLoop) {
    m.Draining? || m.Failing? || m.Exited?
  }

  /** Accepted requests leave the queue in order: into batches, then into the drain. */
  ghost predicate FifoInv(s: State) {
    && s.accepted == InOrder(s)
    && (s.drained != [] ==> AtDrain(s.main))
    && (AtDrain(s.main) ==> s.closed)
    && (s.main == Exited ==> s.queue == [])
  }

  function MaxBatch(s: State): nat {
    if s.maxBatch < 1 then 1 else s.maxBatch
  }

  ghost predicate SizeInv(s: State) {
    && |s.queue| <= CAPACITY
    && (s.main.Collecting? ==> |s.main.batch| < MaxBatch(s))
    && |InHand(s.main)| <= MaxBatch(s)
    && (forall i :: 0 <= i < |s.flushes| ==> 1 <= |s.flushes[i].batch| <= MaxBatch(s))
    && (forall i :: 0 <= i < |s.flushes| ==> PhaseHasWork(s.flushes[i].phase))
  }

  predicate PhaseHasWork(p: Phase) {
    && (p.Dropping? ==> p.todo != [])
    && (p.Calling? ==> p.live != [])
    && (p.FanningOut? ==> p.rest != [])
  }

  ghost predicate Inv(s: State) {
    LockInv(s) && AcceptInv(s) && OnceInv(s) && FifoInv(s) && SizeInv(s)
  }

  // ---------- What each kind of step leaves alone ----------

  lemma ClientFrame(s: State, r: Req, c: ClientStep)
    requires ClientEnabled(s, r, c)
    ensures var t := ClientDo(s, r, c);
      && t.maxBatch == s.maxBatch && t.main == s.main && t.flushes == s.flushes && t.drained == s.drained
      && t.sent == s.sent && t.stopper == s.stopper && t.stopped == s.stopped && t.closed == s.closed
      && (forall q :: q != r ==>
            (q in t.clients <==> q in s.clients) && (q in s.clients ==> t.clients[q] == s.clients[q]))
      && (c != Enqueue ==> t.queue == s.queue && t.accepted == s.accepted)
  {
  }

  lemma MainFrame(s: State, m: MainStep)
    requires MainEnabled(s, m)
    ensures var t := MainDo(s, m);
      && t.clients == s.clients && t.cancelled == s.cancelled && t.maxBatch == s.maxBatch
      && t.stopper == s.stopper && t.stopped == s.stopped && t.closed == s.closed && t.accepted == s.accepted
  {
  }

  lemma FlushFrame(s: State, i: nat, f: FlushStep)
    requires FlushEnabled(s, i, f)
    ensures var t := FlushDo(s, i, f);
      && t.clients == s.clients && t.cancelled == s.cancelled && t.maxBatch == s.maxBatch
      && t.stopper == s.stopper && t.stopped == s.stopped && t.closed == s.closed && t.accepted == s.accepted
      && t.queue == s.queue && t.main == s.main && t.drained == s.drained
      && t.flushes == s.flushes[i := s.flushes[i].(phase := NextPhase(s, i, f))]
  {
  }

  // ---------- Locks ----------

  lemma LockKept(s: State, a: Step)
    requires LockInv(s)
    ensures LockInv(Do(s, a))
  {
  }

  // ---------- Acceptance ----------

  lemma AcceptKeptAt(s: State, a: Step, q: Req)
    requires AcceptedRightly(s, q)
    ensures AcceptedRightly(Do(s, a), q)
  {
  }

  lemma AcceptKept(s: State, a: Step)
    requires AcceptInv(s)
    ensures AcceptInv(Do(s, a))
  {
    forall q
      ensures AcceptedRightly(Do(s, a), q)
    {
      AcceptKeptAt(s, a, q);
    }
  }

  // ---------- Once ----------

  lemma CheckBalance(s: State, i: nat, q: Req)
    requires FlushEnabled(s, i, Check)
    ensures PhasePending(NextPhase(s, i, Check), q) == PhasePending(s.flushes[i].phase, q)
  {
    var phase := s.flushes[i].phase;
    HeadTail(phase.todo, q);
    OneMore(phase.live, phase.todo[0], q);
  }

  lemma DropBalance(s: State, i: nat, q: Req)
    requires FlushEnabled(s, i, Drop)
    ensures Sends(s.sent + Outgoing(s, i, Drop), q) + PhasePending(NextPhase(s, i, Drop), q)
      == Sends(s.sent, q) + PhasePending(s.flushes[i].phase, q)
  {
    var phase := s.flushes[i].phase;
    HeadTail(phase.todo, q);
    SentOneMore(s.sent, Delivery(phase.todo[0], ContextError), q);
  }

  lemma SendBalance(s: State, i: nat, k: nat, ok: bool, q: Req)
    requires FlushEnabled(s, i, Send(k, ok))
    ensures Sends(s.sent + Outgoing(s, i, Send(k, ok)), q) + PhasePending(NextPhase(s, i, Send(k, ok)), q)
      == Sends(s.sent, q) + PhasePending(s.flushes[i].phase, q)
  {
    var phase := s.flushes[i].phase;
    WithoutOne(phase.rest, k, q);
    SentOneMore(s.sent, Delivery(phase.rest[k], Answer(ok)), q);
  }

  /** A flush step moves a request from pending to answered, or leaves both alone. */
  lemma FlushBalance(s: State, i: nat, f: FlushStep, q: Req)
    requires FlushEnabled(s, i, f)
    ensures Sends(FlushDo(s, i, f).sent, q) + PendingIn(FlushDo(s, i, f).flushes, q)
      == Sends(s.sent, q) + PendingIn(s.flushes, q)
  {
    FlushFrame(s, i, f);
    PendingUpdate(s.flushes, i, s.flushes[i].(phase := NextPhase(s, i, f)), q);
    match f
    case Check =>
      CheckBalance(s, i, q);
      assert s.sent + [] == s.sent;
    case Drop => DropBalance(s, i, q);
    case Send(k, ok) => SendBalance(s, i, k, ok, q);
    case _ => assert s.sent + [] == s.sent;
  }

  lemma TakeBalance(s: State, q: Req)
    requires MainEnabled(s, Take)
    ensures Pending(MainDo(s, Take), q) == Pending(s, q)
  {
    HeadTail(s.queue, q);
    OneMore(s.main.batch, s.queue[0], q);
  }

  lemma DrainTakeBalance(s: State, q: Req)
    requires MainEnabled(s, DrainTake)
    ensures Pending(MainDo(s, DrainTake), q) == Pending(s, q)
  {
    HeadTail(s.queue, q);
  }

  lemma DrainSendBalance(s: State, q: Req)
    requires MainEnabled(s, DrainSend)
    ensures Sends(MainDo(s, DrainSend).sent, q) + Pending(MainDo(s, DrainSend), q)
      == Sends(s.sent, q) + Pending(s, q)
  {
    SentOneMore(s.sent, Delivery(s.main.req, DrainError), q);
  }

  lemma DispatchBalance(s: State, q: Req)
    requires MainEnabled(s, Dispatch)
    ensures Pending(MainDo(s, Dispatch), q) == Pending(s, q)
  {
    FlushAppended(s.flushes, Flush(s.main.batch, Filtering(s.main.batch, [])), q);
  }

  /** The other main-loop steps move nothing. */
  lemma QuietStep(s: State, m: MainStep)
    requires MainEnabled(s, m) && m !in {Take, DrainTake, DrainSend, Dispatch}
    ensures var t := MainDo(s, m);
      t.sent == s.sent && t.queue == s.queue && t.flushes == s.flushes && InHand(t.main) == InHand(s.main)
  {
  }

  lemma MainBalance(s: State, m: MainStep, q: Req)
    requires MainEnabled(s, m)
    ensures Sends(MainDo(s, m).sent, q) + Pending(MainDo(s, m), q) == Sends(s.sent, q) + Pending(s, q)
  {
    match m
    case Take => TakeBalance(s, q);
    case DrainTake => DrainTakeBalance(s, q);
    case DrainSend => DrainSendBalance(s, q);
    case Dispatch => DispatchBalance(s, q);
    case _ => QuietStep(s, m);
  }

  lemma ClientBalance(s: State, r: Req, c: ClientStep, q: Req)
    requires ClientEnabled(s, r, c)
    ensures var t := ClientDo(s, r, c);
      Occurrences(t.accepted, q) + Pending(s, q) == Occurrences(s.accepted, q) + Pending(t, q)
  {
  }

  lemma OnceFrame(s: State, t: State)
    requires OnceInv(s)
    requires t.accepted == s.accepted && t.sent == s.sent
    requires t.queue == s.queue && t.main == s.main && t.flushes == s.flushes
    ensures OnceInv(t)
  {
    forall q
      ensures Balanced(t, q)
    {
      assert Balanced(s, q);
    }
  }

  lemma OnceKeptByMain(s: State, m: MainStep)
    requires OnceInv(s) && MainEnabled(s, m)
    ensures OnceInv(MainDo(s, m))
  {
    MainFrame(s, m);
    forall q
      ensures Balanced(MainDo(s, m), q)
    {
      assert Balanced(s, q);
      MainBalance(s, m, q);
    }
  }

  lemma OnceKeptByFlush(s: State, i: nat, f: FlushStep)
    requires OnceInv(s) && FlushEnabled(s, i, f)
    ensures OnceInv(FlushDo(s, i, f))
  {
    FlushFrame(s, i, f);
    forall q
      ensures Balanced(FlushDo(s, i, f), q)
    {
      assert Balanced(s, q);
      FlushBalance(s, i, f, q);
    }
  }

  lemma OnceKeptByClient(s: State, r: Req, c: ClientStep)
    requires OnceInv(s) && ClientEnabled(s, r, c)
    ensures OnceInv(ClientDo(s, r, c))
  {
    ClientFrame(s, r, c);
    forall q
      ensures Balanced(ClientDo(s, r, c), q)
    {
      assert Balanced(s, q);
      ClientBalance(s, r, c, q);
    }
  }

  lemma OnceKept(s: State, a: Step)
    requires OnceInv(s)
    ensures OnceInv(Do(s, a))
  {
    if Enabled(s, a) {
      match a
      case OfClient(r, c) => OnceKeptByClient(s, r, c);
      case OfMain(m) => OnceKeptByMain(s, m);
      case OfFlush(i, f) => OnceKeptByFlush(s, i, f);
      case _ => OnceFrame(s, Do(s, a));
    }
  }

  // ---------- Order ----------

  lemma TakeKeepsOrder(s: State)
    requires MainEnabled(s, Take)
    ensures InOrder(MainDo(s, Take)) == InOrder(s)
  {
  }

  lemma DrainTakeKeepsOrder(s: State)
    requires MainEnabled(s, DrainTake)
    ensures InOrder(MainDo(s, DrainTake)) == InOrder(s)
  {
  }

  lemma DrainSendKeepsOrder(s: State)
    requires MainEnabled(s, DrainSend)
    ensures InOrder(MainDo(s, DrainSend)) == InOrder(s)
  {
  }

  lemma DispatchKeepsOrder(s: State)
    requires MainEnabled(s, Dispatch) && s.drained == []
    ensures InOrder(MainDo(s, Dispatch)) == InOrder(s)
  {
  }

  lemma MainKeepsFifo(s: State, m: MainStep)
    requires FifoInv(s) && MainEnabled(s, m)
    ensures FifoInv(MainDo(s, m))
  {
    MainFrame(s, m);
    match m
    case Take => TakeKeepsOrder(s);
    case DrainTake => DrainTakeKeepsOrder(s);
    case DrainSend => DrainSendKeepsOrder(s);
    case Dispatch => DispatchKeepsOrder(s);
    case _ =>
  }

  lemma FlushKeepsFifo(s: State, i: nat, f: FlushStep)
    requires FifoInv(s) && FlushEnabled(s, i, f)
    ensures FifoInv(FlushDo(s, i, f))
  {
    FlushFrame(s, i, f);
    BatchesUpdate(s.flushes, i, s.flushes[i].(phase := NextPhase(s, i, f)));
  }

  lemma ClientKeepsFifo(s: State, r: Req, c: ClientStep)
    requires LockInv(s) && FifoInv(s) && ClientEnabled(s, r, c)
    ensures FifoInv(ClientDo(s, r, c))
  {
  }

  lemma FifoKept(s: State, a: Step)
    requires LockInv(s) && FifoInv(s)
    ensures FifoInv(Do(s, a))
  {
    if Enabled(s, a) {
      match a
      case OfClient(r, c) => ClientKeepsFifo(s, r, c);
      case OfMain(m) => MainKeepsFifo(s, m);
      case OfFlush(i, f) => FlushKeepsFifo(s, i, f);
      case _ =>
    }
  }

  // ---------- Sizes ----------

  lemma FlushKeepsSize(s: State, i: nat, f: FlushStep)
    requires SizeInv(s) && FlushEnabled(s, i, f)
    ensures SizeInv(FlushDo(s, i, f))
  {
  }

  lemma MainKeepsSize(s: State, m: MainStep)
    requires SizeInv(s) && MainEnabled(s, m)
    ensures SizeInv(MainDo(s, m))
  {
  }

  lemma ClientKeepsSize(s: State, r: Req, c: ClientStep)
    requires SizeInv(s) && ClientEnabled(s, r, c)
    ensures SizeInv(ClientDo(s, r, c))
  {
  }

  lemma SizeFrame(s: State, t: State)
    requires SizeInv(s)
    requires t.queue == s.queue && t.main == s.main && t.flushes == s.flushes && t.maxBatch == s.maxBatch
    ensures SizeInv(t)
  {
  }

  lemma SizeKept(s: State, a: Step)
    requires SizeInv(s)
    ensures SizeInv(Do(s, a))
  {
    if Enabled(s, a) {
      match a
      case OfClient(r, c) => ClientKeepsSize(s, r, c);
      case OfMain(m) => MainKeepsSize(s, m);
      case OfFlush(i, f) => FlushKeepsSize(s, i, f);
      case _ => SizeFrame(s, Do(s, a));
    }
  }

  lemma InvKept(s: State, a: Step)
    requires Inv(s)
    ensures Inv(Do(s, a))
  {
    LockKept(s, a);
    AcceptKept(s, a);
    OnceKept(s, a);
    FifoKept(s, a);
    SizeKept(s, a);
  }

  lemma {:induction false} InvStays(s: State, run: seq<Step>)
    requires Inv(s)
    ensures Inv(Exec(s, run))
    decreases |run|
  {
    if run != [] {
      InvStays(s, run[..|run| - 1]);
      InvKept(Exec(s, run[..|run| - 1]), run[|run| - 1]);
    }
  }

  lemma Reachable(maxBatch: int, run: seq<Step>)
    ensures Inv(Exec(Init(maxBatch), run))
  {
    InvStays(Init(maxBatch), run);
  }

  // ---------- Theorems for every schedule ----------

  lemma {:induction false} NothingPending(fs: seq<Flush>, r: Req)
    requires AllFinished(fs)
    ensures PendingIn(fs, r) == 0
  {
    if fs != [] {
      assert fs[|fs| - 1].phase == Finished;
      assert forall i :: 0 <= i < |fs| - 1 ==> fs[..|fs| - 1][i] == fs[i];
      NothingPending(fs[..|fs| - 1], r);
    }
  }

  /**
   Exactly once: no channel ever gets two results, a rejected or undecided caller
   gets none, and at quiescence every accepted request has one, whatever the
   interleaving and whether or not its client is still there.
   */
  lemma ExactlyOnce(maxBatch: int, run: seq<Step>, r: Req)
    ensures var s := Exec(Init(maxBatch), run);
      && Sends(s.sent, r) <= 1
      && (Sends(s.sent, r) == 1 ==> r in s.accepted)
      && (r in s.clients && s.clients[r].Rejected? ==> r !in s.accepted && Sends(s.sent, r) == 0)
      && (Quiescent(s) && r in s.accepted ==> Sends(s.sent, r) == 1)
  {
    var s := Exec(Init(maxBatch), run);
    Reachable(maxBatch, run);
    assert Balanced(s, r) && AcceptedRightly(s, r);
    if Quiescent(s) {
      NothingPending(s.flushes, r);
    }
  }

  /** At quiescence every client still waiting finds its result. */
  lemma WaitersAreServed(maxBatch: int, run: seq<Step>, r: Req)
    ensures var s := Exec(Init(maxBatch), run);
      Quiescent(s) && r in s.clients && s.clients[r] == Waiting ==> Enabled(s, OfClient(r, Receive))
  {
    var s := Exec(Init(maxBatch), run);
    Reachable(maxBatch, run);
    assert Balanced(s, r) && AcceptedRightly(s, r);
    if Quiescent(s) {
      NothingPending(s.flushes, r);
    }
  }

  ghost predicate Partitioned(s: State, maxBatch: int) {
    && s.accepted == Batches(s.flushes) + s.drained + InHand(s.main) + s.queue
    && (forall i :: 0 <= i < |s.flushes| ==> 1 <= |s.flushes[i].batch| <= if maxBatch < 1 then 1 else maxBatch)
    && |s.queue| <= CAPACITY
    && (s.main == Exited ==> s.queue == [] && s.accepted == Batches(s.flushes) + s.drained)
  }

  lemma InvPartitions(s: State)
    requires Inv(s)
    ensures Partitioned(s, s.maxBatch)
  {
  }

  /**
   FIFO partition: the accepted requests are, in acceptance order, the dispatched
   batches, the drained requests, what the main loop has in hand and the queue;
   batches are non-empty and bounded, and so is the queue.
   */
  lemma FifoPartition(maxBatch: int, run: seq<Step>)
    ensures Partitioned(Exec(Init(maxBatch), run), maxBatch)
  {
    Reachable(maxBatch, run);
    MaxBatchFixed(Init(maxBatch), run);
    InvPartitions(Exec(Init(maxBatch), run));
  }

  lemma {:induction false} MaxBatchFixed(s: State, run: seq<Step>)
    ensures Exec(s, run).maxBatch == s.maxBatch
    decreases |run|
  {
    if run != [] {
      MaxBatchFixed(s, run[..|run| - 1]);
    }
  }

  lemma AcceptedFixedByStep(s: State, a: Step)
    requires LockInv(s) && s.stopped
    ensures Do(s, a).stopped && Do(s, a).accepted == s.accepted
    ensures s.main == Exited ==> Do(s, a).main == Exited
  {
  }

  /** Once `stopped` is set nothing is accepted any more, and a returned main loop leaves the queue empty for ever. */
  lemma {:induction false} NothingAcceptedAfterStop(s: State, run: seq<Step>)
    requires Inv(s) && s.stopped
    ensures var t := Exec(s, run);
      && Inv(t) && t.stopped && t.accepted == s.accepted
      && (s.main == Exited ==> t.main == Exited && t.queue == [])
    decreases |run|
  {
    if run != [] {
      var init := run[..|run| - 1];
      NothingAcceptedAfterStop(s, init);
      AcceptedFixedByStep(Exec(s, init), run[|run| - 1]);
      InvKept(Exec(s, init), run[|run| - 1]);
    }
  }

  /** Whoever still has to be answered has a free slot: no send can block. */
  lemma PendingSlotIsFree(s: State, r: Req)
    requires Inv(s) && Pending(s, r) > 0
    ensures Sends(s.sent, r) == 0 && SlotFree(s, r)
  {
    assert Balanced(s, r) && AcceptedRightly(s, r);
  }

  lemma {:induction false} PendingInFlush(fs: seq<Flush>, i: nat, r: Req)
    requires i < |fs|
    ensures PendingIn(fs, r) >= PhasePending(fs[i].phase, r)
  {
    if i < |fs| - 1 {
      PendingInFlush(fs[..|fs| - 1], i, r);
    }
  }

  // ---------- Why a request got its result ----------

  predicate Caused(d: Delivery, cancelled: set<Req>, drained: seq<Req>) {
    && (d.outcome == ContextError ==> d.req in cancelled)
    && (d.outcome == DrainError ==> d.req in drained)
  }

  predicate DropsCancelled(p: Phase, cancelled: set<Req>) {
    p.Dropping? && p.todo != [] ==> p.todo[0] in cancelled
  }

  ghost predicate CauseInv(s: State) {
    && (forall j :: 0 <= j < |s.sent| ==> Caused(s.sent[j], s.cancelled, s.drained))
    && (forall i :: 0 <= i < |s.flushes| ==> DropsCancelled(s.flushes[i].phase, s.cancelled))
  }

  lemma CauseKept(s: State, a: Step)
    requires CauseInv(s)
    ensures CauseInv(Do(s, a))
  {
  }

  /** A context error is sent only to a request whose context has ended, a drain error only to a drained one. */
  lemma {:induction false} ErrorsHaveCauses(maxBatch: int, run: seq<Step>)
    ensures CauseInv(Exec(Init(maxBatch), run))
    decreases |run|
  {
    if run != [] {
      ErrorsHaveCauses(maxBatch, run[..|run| - 1]);
      CauseKept(Exec(Init(maxBatch), run[..|run| - 1]), run[|run| - 1]);
    }
  }

  // ---------- Counting ----------

  function Sum(fs: seq<Flush>, weight: Phase -> nat): nat {
    if fs == [] then 0 else Sum(fs[..|fs| - 1], weight) + weight(fs[|fs| - 1].phase)
  }

  lemma {:induction false} SumUpdate(fs: seq<Flush>, i: nat, f: Flush, weight: Phase -> nat)
    requires i < |fs|
    ensures Sum(fs[i := f], weight) + weight(fs[i].phase) == Sum(fs, weight) + weight(f.phase)
  {
    var n := |fs| - 1;
    if i < n {
      SumUpdate(fs[..n], i, f, weight);
      assert fs[i := f][..n] == fs[..n][i := f];
    } else {
      assert fs[i := f][..n] == fs[..n];
    }
  }

  lemma SumAppended(fs: seq<Flush>, f: Flush, weight: Phase -> nat)
    ensures Sum(fs + [f], weight) == Sum(fs, weight) + weight(f.phase)
  {
    assert (fs + [f])[..|fs|] == fs;
  }

  lemma {:induction false} SumFinished(fs: seq<Flush>, weight: Phase -> nat)
    requires AllFinished(fs) && weight(Finished) == 0
    ensures Sum(fs, weight) == 0
  {
    if fs != [] {
      assert fs[|fs| - 1].phase == Finished;
      assert forall i :: 0 <= i < |fs| - 1 ==> fs[..|fs| - 1][i] == fs[i];
      SumFinished(fs[..|fs| - 1], weight);
    }
  }

  /** Requests of a flush that have not been answered. */
  function Unanswered(p: Phase): nat {
    match p
    case Filtering(todo, live) => |todo| + |live|
    case Dropping(todo, live) => |todo| + |live|
    case Calling(live) => |live|
    case FanningOut(rest, _) => |rest|
    case Finished => 0
  }

  /** Requests of a flush not yet counted as cancelled, observed or unobserved. */
  function Unclassified(p: Phase): nat {
    match p
    case Filtering(todo, live) => |todo| + |live|
    case Dropping(todo, live) => |todo| + |live|
    case Calling(live) => |live|
    case FanningOut(_, _) => 0
    case Finished => 0
  }

  ghost predicate CountInv(s: State) {
    && s.stats.success + s.stats.errors == |s.sent|
    && |s.accepted| == |s.sent| + |s.queue| + |InHand(s.main)| + Sum(s.flushes, Unanswered)
    && |s.accepted| == s.stats.batchSum + s.stats.unobserved + s.stats.cancelledAtFlush
         + |s.drained| + |s.queue| + |InHand(s.main)| + Sum(s.flushes, Unclassified)
  }

  lemma FlushKeepsCount(s: State, i: nat, f: FlushStep)
    requires CountInv(s) && FlushEnabled(s, i, f)
    ensures CountInv(FlushDo(s, i, f))
  {
    FlushFrame(s, i, f);
    SumUpdate(s.flushes, i, s.flushes[i].(phase := NextPhase(s, i, f)), Unanswered);
    SumUpdate(s.flushes, i, s.flushes[i].(phase := NextPhase(s, i, f)), Unclassified);
  }

  lemma DispatchKeepsCount(s: State)
    requires CountInv(s) && MainEnabled(s, Dispatch)
    ensures CountInv(MainDo(s, Dispatch))
  {
    var t, f := MainDo(s, Dispatch), Flush(s.main.batch, Filtering(s.main.batch, []));
    assert InHand(t.main) == [];
    if s.main.batch == [] {
      assert t.flushes == s.flushes;
    } else {
      assert t.flushes == s.flushes + [f];
      SumAppended(s.flushes, f, Unanswered);
      SumAppended(s.flushes, f, Unclassified);
    }
  }

  lemma MainKeepsCount(s: State, m: MainStep)
    requires CountInv(s) && MainEnabled(s, m)
    ensures CountInv(MainDo(s, m))
  {
    if m == Dispatch {
      DispatchKeepsCount(s);
    } else {
      assert MainDo(s, m).flushes == s.flushes;
    }
  }

  lemma ClientKeepsCount(s: State, r: Req, c: ClientStep)
    requires CountInv(s) && ClientEnabled(s, r, c)
    ensures CountInv(ClientDo(s, r, c))
  {
  }

  lemma CountKept(s: State, a: Step)
    requires CountInv(s)
    ensures CountInv(Do(s, a))
  {
    if Enabled(s, a) {
      match a
      case OfClient(r, c) => ClientKeepsCount(s, r, c);
      case OfMain(m) => MainKeepsCount(s, m);
      case OfFlush(i, f) => FlushKeepsCount(s, i, f);
      case _ =>
    }
  }

  lemma {:induction false} CountReachable(maxBatch: int, run: seq<Step>)
    ensures CountInv(Exec(Init(maxBatch), run))
    decreases |run|
  {
    if run != [] {
      CountReachable(maxBatch, run[..|run| - 1]);
      CountKept(Exec(Init(maxBatch), run[..|run| - 1]), run[|run| - 1]);
    }
  }

  /**
   Conservation: at quiescence the outcome counters add up to the accepted
   requests, which split into observed batch sizes, requests whose payload could
   not be built, requests cancelled at the flush, and drained ones.
   */
  lemma OutcomesAreConserved(maxBatch: int, run: seq<Step>)
    ensures var s := Exec(Init(maxBatch), run);
      Quiescent(s) ==>
        && s.stats.success + s.stats.errors == |s.accepted|
        && |s.accepted| == s.stats.batchSum + s.stats.unobserved + s.stats.cancelledAtFlush + |s.drained|
  {
    var s := Exec(Init(maxBatch), run);
    CountReachable(maxBatch, run);
    Reachable(maxBatch, run);
    if Quiescent(s) {
      SumFinished(s.flushes, Unanswered);
      SumFinished(s.flushes, Unclassified);
    }
  }

  // ---------- Runs ----------

  lemma {:induction false} ExecConcat(s: State, a: seq<Step>, b: seq<Step>)
    ensures Exec(s, a + b) == Exec(Exec(s, a), b)
    decreases |b|
  {
    if b == [] {
      assert a + b == a;
    } else {
      assert (a + b)[..|a + b| - 1] == a + b[..|b| - 1];
      ExecConcat(s, a, b[..|b| - 1]);
    }
  }

  lemma ExecMore(s: State, run: seq<Step>, a: Step)
    ensures Exec(s, run + [a]) == Do(Exec(s, run), a)
  {
    assert (run + [a])[..|run|] == run;
  }
}
