/**
 What Stop promises when it returns. The main loop is not in the wait group, so
 Stop may return while requests are queued or in the main loop's hands. These
 theorems say when that cannot happen, for all interleavings.
 */
module ProtocolStop {
  import opened Protocol
  import opened ProtocolSafety
  import opened ProtocolLiveness

  ghost predicate EveryoneAnswered(s: State) {
    forall r :: r in s.accepted ==> Sends(s.sent, r) == 1
  }

  /** Nothing is queued and the main loop has taken nothing off the queue. */
  predicate Idle(s: State) {
    s.queue == [] && InHand(s.main) == []
  }

  lemma AnsweredIffIdle(s: State)
    requires Inv(s) && AllFinished(s.flushes)
    ensures EveryoneAnswered(s) <==> Idle(s)
  {
    forall r
      ensures Occurrences(s.accepted, r) == Sends(s.sent, r) + Occurrences(s.queue, r) + Occurrences(InHand(s.main), r)
      ensures Occurrences(s.accepted, r) <= 1
    {
      assert Balanced(s, r) && AcceptedRightly(s, r);
      NothingPending(s.flushes, r);
    }
    if s.queue != [] {
      assert Occurrences(s.queue, s.queue[0]) > 0;
      assert s.queue[0] in s.accepted;
    } else if InHand(s.main) != [] {
      assert Occurrences(InHand(s.main), InHand(s.main)[0]) > 0;
      assert InHand(s.main)[0] in s.accepted;
    }
  }

  // ---------- Once no request can be accepted any more ----------

  /** A caller that is not, or no longer, inside Submit. */
  predicate OutOfSubmit(c: Client) {
    c.Rejected? || c == Waiting || c == Received || c == Left
  }

  ghost predicate NobodySubmitting(s: State) {
    forall r :: r in s.clients ==> OutOfSubmit(s.clients[r])
  }

  predicate Arrives(a: Step) {
    a.OfClient? && a.c == Arrive
  }

  ghost predicate NoArrivals(run: seq<Step>) {
    forall k :: 0 <= k < |run| ==> !Arrives(run[k])
  }

  /** Stop holds or has released the write lock, or all callers are done submitting. */
  ghost predicate Sealed(s: State) {
    s.stopper != NotStopping || NobodySubmitting(s)
  }

  lemma SealedStep(s: State, a: Step)
    requires LockInv(s) && Sealed(s) && (s.stopper == NotStopping ==> !Arrives(a))
    ensures Sealed(Do(s, a)) && Do(s, a).accepted == s.accepted
    ensures Idle(s) ==> Idle(Do(s, a))
    ensures Idle(s) && AllFinished(s.flushes) ==> AllFinished(Do(s, a).flushes)
  {
  }

  /** Sealed and idle, and if Stop has returned, then with every flush done. */
  ghost predicate Calm(s: State) {
    Inv(s) && Sealed(s) && Idle(s) && (s.stopper == Returned ==> AllFinished(s.flushes))
  }

  lemma CalmStep(s: State, a: Step)
    requires Calm(s) && (s.stopper == NotStopping ==> !Arrives(a))
    ensures Calm(Do(s, a))
  {
    InvKept(s, a);
    SealedStep(s, a);
  }

  lemma StopOnlyAdvances(s: State, a: Step)
    ensures s.stopper != NotStopping ==> Do(s, a).stopper != NotStopping
  {
  }

  lemma {:induction false} StopIsNotUndone(s: State, run: seq<Step>)
    requires s.stopper != NotStopping
    ensures Exec(s, run).stopper != NotStopping
    decreases |run|
  {
    if run != [] {
      StopIsNotUndone(s, run[..|run| - 1]);
      StopOnlyAdvances(Exec(s, run[..|run| - 1]), run[|run| - 1]);
    }
  }

  lemma {:induction false} CalmStays(s: State, run: seq<Step>)
    requires Calm(s) && (s.stopper != NotStopping || NoArrivals(run))
    ensures Calm(Exec(s, run))
    decreases |run|
  {
    if run != [] {
      var init, a := run[..|run| - 1], run[|run| - 1];
      CalmStays(s, init);
      if s.stopper != NotStopping {
        StopIsNotUndone(s, init);
      }
      CalmStep(Exec(s, init), a);
    }
  }

  // ---------- Stop overtaking the main loop ----------

  function Readers(s: State): set<Req> {
    set r | r in s.clients && HoldsReadLock(s.clients[r])
  }

  lemma TakeWriteLock(s: State) returns (t: State)
    requires Inv(s) && s.stopper == NotStopping && Readers(s) == {}
    ensures t == Do(s, OfStop(Lock)) == s.(stopper := WriteLocked) && Inv(t)
  {
    t := s.(stopper := WriteLocked);
    forall r | r in s.clients
      ensures !HoldsReadLock(s.clients[r])
    {
      assert r !in Readers(s);
    }
    InvKept(s, OfStop(Lock));
  }

  /** The flushes alone can finish. */
  lemma {:induction false} FinishFlushes(s: State) returns (run: seq<Step>, t: State)
    requires Inv(s)
    ensures t == Exec(s, run) && NoArrivals(run)
    ensures t == s.(flushes := t.flushes, sent := t.sent, stats := t.stats) && AllFinished(t.flushes)
    decreases Work(s)
  {
    if AllFinished(s.flushes) {
      run, t := [], s;
    } else {
      var i := UnfinishedFlush(s.flushes);
      var f := FlushCanStep(s, i);
      var a := OfFlush(i, f);
      FlushStepShrinksWork(s, i, f);
      InvKept(s, a);
      var rest;
      rest, t := FinishFlushes(Do(s, a));
      run := [a] + rest;
      ExecConcat(s, [a], rest);
      ExecMore(s, [], a);
    }
  }

  /** From the locked section to the close of stopCh, with nobody else moving. */
  lemma CloseStopCh(s: State) returns (run: seq<Step>)
    requires LockInv(s) && WriterHolds(s)
    ensures NoArrivals(run) && Exec(s, run) == s.(stopper := Closed, stopped := true, closed := true)
  {
    ExecMore(s, [], OfStop(Flag));
    run := [] + [OfStop(Flag)];
    ExecMore(s, run, OfStop(Unlock));
    run := run + [OfStop(Unlock)];
    ExecMore(s, run, OfStop(Close));
    run := run + [OfStop(Close)];
  }

  /** The tracker exits and the wait is over. */
  lemma EndWait(s: State) returns (run: seq<Step>)
    requires s.stopper == Closed && s.closed && AllFinished(s.flushes)
    ensures NoArrivals(run) && Exec(s, run) == s.(stopper := Returned, tracking := false, stopped := s.stopped)
  {
    ExecMore(s, [], TrackerExits);
    run := [] + [TrackerExits];
    ExecMore(s, run, OfStop(WaitReturns));
    run := run + [OfStop(WaitReturns)];
  }

  /** If the main loop holds anything once the write lock is taken, Stop can return before it is answered. */
  lemma StopOvertakes(s: State) returns (run: seq<Step>)
    requires Inv(s) && WriterHolds(s) && !Idle(s)
    ensures NoArrivals(run)
    ensures Exec(s, run).stopper == Returned && Exec(s, run).main == s.main && !EveryoneAnswered(Exec(s, run))
  {
    var flush, t := FinishFlushes(s);
    InvStays(s, flush);
    var close := CloseStopCh(t);
    var wait := EndWait(Exec(t, close));
    ExecConcat(s, flush, close);
    ExecConcat(s, flush + close, wait);
    run := flush + close + wait;
    InvStays(s, run);
    AnsweredIffIdle(Exec(s, run));
  }

  /** The same from just before Stop takes the write lock, if no reader is in its way. */
  lemma StopOvertakesFromCall(s: State) returns (run: seq<Step>)
    requires Inv(s) && s.stopper == NotStopping && Readers(s) == {} && !Idle(s)
    ensures NoArrivals(run)
    ensures Exec(s, run).stopper == Returned && Exec(s, run).main == s.main && !EveryoneAnswered(Exec(s, run))
  {
    var lock := OfStop(Lock);
    var t := TakeWriteLock(s);
    ExecMore(s, [], lock);
    assert [] + [lock] == [lock];
    var rest := StopOvertakes(t);
    ExecConcat(s, [lock], rest);
    run := [lock] + rest;
  }

  // ---------- What Stop promises ----------

  /** However the rest of the run interleaves, everyone is answered when Stop returns. */
  ghost predicate StopServesAll(s: State) {
    forall run :: Exec(s, run).stopper == Returned ==> EveryoneAnswered(Exec(s, run))
  }

  /**
   At the moment Stop has the write lock: every continuation answers every
   accepted request before Stop returns exactly if the queue is empty and the main
   loop has nothing in hand.
   */
  lemma StopReturnIsCompleteIff(s: State)
    requires Inv(s) && WriterHolds(s)
    ensures StopServesAll(s) <==> Idle(s)
  {
    if Idle(s) {
      forall run | Exec(s, run).stopper == Returned
        ensures EveryoneAnswered(Exec(s, run))
      {
        CalmStays(s, run);
        AnsweredIffIdle(Exec(s, run));
      }
    } else {
      var run := StopOvertakes(s);
      assert Exec(s, run).stopper == Returned && !EveryoneAnswered(Exec(s, run));
    }
  }

  /** The same, for runs into which no further callers arrive. */
  ghost predicate StopServesPresent(s: State) {
    forall run :: NoArrivals(run) && Exec(s, run).stopper == Returned ==> EveryoneAnswered(Exec(s, run))
  }

  /**
   Shutdown in the order of the process, RPC server first: when no caller is
   submitting and none arrives, calling Stop answers everyone before it returns
   exactly if at the call nothing is queued and nothing in hand.
   */
  lemma GracefulStopIsCompleteIff(s: State)
    requires Inv(s) && s.stopper == NotStopping && NobodySubmitting(s)
    ensures StopServesPresent(s) <==> Idle(s)
  {
    if Idle(s) {
      forall run | NoArrivals(run) && Exec(s, run).stopper == Returned
        ensures EveryoneAnswered(Exec(s, run))
      {
        CalmStays(s, run);
        AnsweredIffIdle(Exec(s, run));
      }
    } else {
      assert Readers(s) == {};
      var run := StopOvertakesFromCall(s);
      assert NoArrivals(run) && Exec(s, run).stopper == Returned && !EveryoneAnswered(Exec(s, run));
    }
  }

  // ---------- Without that order nothing is promised ----------

  /** How many steps a caller holding the read lock is away from releasing it, less one. */
  function Stage(c: Client): nat {
    if c == Locked then 2 else if c == Cleared then 1 else 0
  }

  function NextInSubmit(c: Client): ClientStep {
    if c == Locked then CheckStopped else if c == Cleared then Enqueue else RUnlock
  }

  /** A caller inside the locked section of Submit can always go on. */
  lemma ReaderStep(s: State, r: Req) returns (t: State)
    requires r in Readers(s)
    ensures ClientEnabled(s, r, NextInSubmit(s.clients[r])) && t == ClientDo(s, r, NextInSubmit(s.clients[r]))
    ensures t.stopper == s.stopper && r in t.clients
    ensures if r in Readers(t) then Readers(t) == Readers(s) && Stage(t.clients[r]) < Stage(s.clients[r])
      else Readers(t) == Readers(s) - {r}
  {
    t := ClientDo(s, r, NextInSubmit(s.clients[r]));
    ClientFrame(s, r, NextInSubmit(s.clients[r]));
  }

  lemma {:induction false} ReleaseReader(s: State, r: Req) returns (run: seq<Step>, t: State)
    requires r in Readers(s)
    ensures t == Exec(s, run) && t.stopper == s.stopper && Readers(t) == Readers(s) - {r}
    decreases Stage(s.clients[r])
  {
    var a := OfClient(r, NextInSubmit(s.clients[r]));
    t := ReaderStep(s, r);
    ExecMore(s, [], a);
    run := [] + [a];
    if r in Readers(t) {
      var rest;
      var t1 := t;
      rest, t := ReleaseReader(t1, r);
      ExecConcat(s, run, rest);
      run := run + rest;
    }
  }

  lemma {:induction false} ReleaseReaders(s: State) returns (run: seq<Step>, t: State)
    ensures t == Exec(s, run) && t.stopper == s.stopper && Readers(t) == {}
    decreases |Readers(s)|
  {
    if Readers(s) == {} {
      run, t := [], s;
    } else {
      var r :| r in Readers(s);
      var run1, t1 := ReleaseReader(s, r);
      var run2;
      run2, t := ReleaseReaders(t1);
      ExecConcat(s, run1, run2);
      run := run1 + run2;
    }
  }

  lemma {:induction false} UpperBound(used: set<Req>) returns (b: nat)
    ensures forall r :: r in used ==> r < b
    decreases |used|
  {
    if used == {} {
      b := 0;
    } else {
      var r :| r in used;
      var rest := UpperBound(used - {r});
      b := if r < rest then rest else r + 1;
      assert forall q :: q in used ==> q == r || q in used - {r};
    }
  }

  /** A caller that has not been seen before finds the breaker closed. */
  lemma PassBreaker(s: State, r: Req) returns (run: seq<Step>, t: State)
    requires r !in s.clients
    ensures t == Exec(s, run) == s.(breakerOpen := false, clients := s.clients[r := Passed])
  {
    t := s.(breakerOpen := false, clients := s.clients[r := Passed]);
    ExecMore(s, [], Guard(false));
    run := [] + [Guard(false)];
    ExecMore(s, run, OfClient(r, Arrive));
    run := run + [OfClient(r, Arrive)];
    ExecMore(s, run, OfClient(r, CheckBreaker));
    run := run + [OfClient(r, CheckBreaker)];
    assert s.clients[r := Arrived][r := Passed] == t.clients;
  }

  /** A caller past the breaker enters the locked section before Stop does. */
  lemma PassCheck(s: State, r: Req) returns (run: seq<Step>, t: State)
    requires s.stopper == NotStopping && !s.stopped && r in s.clients && s.clients[r] == Passed
    ensures t == Exec(s, run) == s.(clients := s.clients[r := Cleared])
  {
    t := s.(clients := s.clients[r := Cleared]);
    ExecMore(s, [], OfClient(r, RLock));
    run := [] + [OfClient(r, RLock)];
    ExecMore(s, run, OfClient(r, CheckStopped));
    run := run + [OfClient(r, CheckStopped)];
    assert s.clients[r := Locked][r := Cleared] == t.clients;
  }

  /** A new caller can come in and have its request accepted before Stop gets the write lock. */
  lemma AdmitNewcomer(s: State) returns (run: seq<Step>, t: State, r: Req)
    requires Inv(s) && s.stopper == NotStopping && Readers(s) == {} && |s.queue| < CAPACITY
    ensures t == Exec(s, run) && t.stopper == NotStopping && Readers(t) == {}
    ensures t.main == s.main && t.flushes == s.flushes && t.queue == s.queue + [r]
  {
    r := UpperBound(s.clients.Keys);
    var run0, t0 := PassBreaker(s, r);
    var run1, t1 := PassCheck(t0, r);
    ExecConcat(s, run0, run1);
    run := run0 + run1;
    var t2 := ClientDo(t1, r, Enqueue);
    ExecMore(s, run, OfClient(r, Enqueue));
    run := run + [OfClient(r, Enqueue)];
    t := ClientDo(t2, r, RUnlock);
    ExecMore(s, run, OfClient(r, RUnlock));
    run := run + [OfClient(r, RUnlock)];
    forall q | q in t.clients
      ensures !HoldsReadLock(t.clients[q])
    {
      assert q != r ==> q in s.clients && t.clients[q] == s.clients[q] && q !in Readers(s);
    }
  }

  /**
   Before Stop is called there is no state from which its return is sure to leave
   everyone answered: a caller may still slip in ahead of the write lock.
   */
  lemma NothingIsPromisedToLateCallers(s: State)
    requires Inv(s) && s.stopper == NotStopping
    ensures !StopServesAll(s)
  {
    var run, t := ReleaseReaders(s);
    InvStays(s, run);
    if Idle(t) {
      var more, u, r := AdmitNewcomer(t);
      ExecConcat(s, run, more);
      run, t := run + more, u;
      InvStays(s, run);
    }
    var rest := StopOvertakesFromCall(t);
    ExecConcat(s, run, rest);
    assert Exec(s, run + rest).stopper == Returned && !EveryoneAnswered(Exec(s, run + rest));
  }

  // ---------- Two ways of returning early ----------

  /** A started batcher with one request accepted and the main loop between two batches. */
  lemma OneQueued() returns (run: seq<Step>, t: State, r: Req)
    ensures t == Exec(Init(8), run) && Inv(t) && t.stopper == NotStopping && Readers(t) == {}
    ensures t.main == Peeking && t.queue == [r] && t.flushes == []
  {
    var start := [] + [OfMain(Start)];
    ExecMore(Init(8), [], OfMain(Start));
    Reachable(8, start);
    var more;
    more, t, r := AdmitNewcomer(Exec(Init(8), start));
    ExecConcat(Init(8), start, more);
    run := start + more;
    Reachable(8, run);
  }

  ghost predicate Stranded(s: State, r: Req) {
    r in s.accepted && Sends(s.sent, r) == 0
  }

  lemma PendingIsStranded(s: State, r: Req)
    requires Inv(s) && (r in s.queue || r in InHand(s.main))
    ensures Stranded(s, r)
  {
    assert Balanced(s, r) && AcceptedRightly(s, r);
    assert Pending(s, r) > 0;
  }

  /** Stop can return while an accepted request sits in the queue of a main loop that is still running. */
  lemma StopMayReturnEarly() returns (run: seq<Step>, r: Req)
    ensures var s := Exec(Init(8), run);
      s.stopper == Returned && s.main == Peeking && s.queue == [r] && Stranded(s, r)
  {
    var t;
    run, t, r := OneQueued();
    var u := TakeWriteLock(t);
    ExecMore(Init(8), run, OfStop(Lock));
    run := run + [OfStop(Lock)];
    var close := CloseStopCh(u);
    var wait := EndWait(Exec(u, close));
    ExecConcat(Init(8), run, close);
    ExecConcat(Init(8), run + close, wait);
    run := run + close + wait;
    Reachable(8, run);
    PendingIsStranded(Exec(Init(8), run), r);
  }

  /** The main loop finds stopCh closed and takes one request off the queue to fail it. */
  lemma DrainBegins(s: State, r: Req) returns (run: seq<Step>)
    requires s.main == Peeking && s.closed && s.queue == [r]
    ensures Exec(s, run) == s.(main := Failing(r), queue := [])
  {
    ExecMore(s, [], OfMain(Peek));
    run := [] + [OfMain(Peek)];
    ExecMore(s, run, OfMain(DrainTake));
    run := run + [OfMain(DrainTake)];
  }

  /** It can also return between the drain's receive and its send, when the queue is already empty. */
  lemma StopMayReturnMidDrain() returns (run: seq<Step>, r: Req)
    ensures var s := Exec(Init(8), run);
      s.stopper == Returned && s.main == Failing(r) && s.queue == [] && Stranded(s, r)
  {
    var t;
    run, t, r := OneQueued();
    var u := TakeWriteLock(t);
    ExecMore(Init(8), run, OfStop(Lock));
    run := run + [OfStop(Lock)];
    var close := CloseStopCh(u);
    var drain := DrainBegins(Exec(u, close), r);
    ExecConcat(Init(8), run, close);
    ExecConcat(Init(8), run + close, drain);
    run := run + close + drain;
    var wait := EndWait(Exec(Init(8), run));
    ExecConcat(Init(8), run, wait);
    run := run + wait;
    Reachable(8, run);
    PendingIsStranded(Exec(Init(8), run), r);
  }

  // ---------- The wait group is reused ----------

  /** The steps by which a goroutine leaves the wait group: the tracker's exit, a flush's last send. */
  predicate LeavesGroup(d: Step) {
    d.TrackerExits? || d.OfFlush?
  }

  /**
   Stop is waiting, step d takes the wait group's counter to zero, and before the
   waiter is back the main loop registers another flush.
   */
  ghost predicate ReuseWindow(s: State, d: Step) {
    && s.stopper == Closed && !WaitGroupIsZero(s) && LeavesGroup(d)
    && var t := Do(s, d);
       WaitGroupIsZero(t) && MainEnabled(t, Dispatch) && !WaitGroupIsZero(MainDo(t, Dispatch))
  }

  lemma DispatchRegisters(t: State)
    requires MainEnabled(t, Dispatch) && WaitGroupIsZero(t)
    ensures !WaitGroupIsZero(MainDo(t, Dispatch)) <==> t.main.batch != []
  {
    var u := MainDo(t, Dispatch);
    if t.main.batch != [] {
      assert u.flushes[|t.flushes|].phase != Finished;
    }
  }

  lemma NoReuseWhenCalm(s: State, d: Step)
    requires Calm(s)
    ensures !ReuseWindow(s, d)
  {
    var t := Do(s, d);
    if LeavesGroup(d) && t.main.Collected? && WaitGroupIsZero(t) {
      assert t.main == s.main by {
        if d.OfFlush? && Enabled(s, d) {
          FlushFrame(s, d.i, d.f);
        }
      }
      DispatchRegisters(t);
    }
  }

  /** Steps of the main loop to a non-empty collected batch. */
  function ToCollected(m: MainLoop): nat {
    match m
    case NotStarted => 4
    case Peeking => 3
    case Collecting(batch) => if batch == [] then 2 else 1
    case Collected(batch) => if batch == [] then 4 else 0
    case _ => 0
  }

  lemma TowardsCollected(s: State) returns (m: MainStep)
    requires Inv(s) && WriterHolds(s) && !Idle(s) && ToCollected(s.main) > 0
    ensures MainEnabled(s, m)
    ensures var t := MainDo(s, m);
      WriterHolds(t) && !Idle(t) && ToCollected(t.main) < ToCollected(s.main)
  {
    match s.main
    case NotStarted => m := Start;
    case Peeking => m := Peek;
    case Collecting(batch) => m := if batch == [] then Take else Deadline;
    case Collected(batch) => m := Dispatch;
  }

  lemma {:induction false} CollectAll(s: State) returns (run: seq<Step>, t: State)
    requires Inv(s) && WriterHolds(s) && !Idle(s)
    ensures t == Exec(s, run) && Inv(t) && WriterHolds(t)
    ensures t.main.Collected? && t.main.batch != []
    decreases ToCollected(s.main)
  {
    if ToCollected(s.main) == 0 {
      run, t := [], s;
    } else {
      var m := TowardsCollected(s);
      InvKept(s, OfMain(m));
      ExecMore(s, [], OfMain(m));
      var rest;
      rest, t := CollectAll(MainDo(s, m));
      ExecConcat(s, [] + [OfMain(m)], rest);
      run := [] + [OfMain(m)] + rest;
    }
  }

  /** With a batch collected, Stop closes stopCh, and the tracker is the last to leave the group. */
  lemma CollectedBatchReuses(s: State) returns (run: seq<Step>)
    requires Inv(s) && WriterHolds(s) && s.main.Collected? && s.main.batch != []
    ensures ReuseWindow(Exec(s, run), TrackerExits)
  {
    var flush, u := FinishFlushes(s);
    InvStays(s, flush);
    var close := CloseStopCh(u);
    ExecConcat(s, flush, close);
    run := flush + close;
    DispatchRegisters(Do(Exec(s, run), TrackerExits));
  }

  /**
   A flush can be registered while Stop waits and just after the wait group's
   counter has reached zero exactly if, when Stop took the write lock, something
   was queued or in hand: the condition of an early return.
   */
  lemma WaitGroupReuseIff(s: State)
    requires Inv(s) && WriterHolds(s)
    ensures (exists run, d :: ReuseWindow(Exec(s, run), d)) <==> !Idle(s)
  {
    if Idle(s) {
      forall run, d
        ensures !ReuseWindow(Exec(s, run), d)
      {
        CalmStays(s, run);
        NoReuseWhenCalm(Exec(s, run), d);
      }
    } else {
      var run, t := CollectAll(s);
      var rest := CollectedBatchReuses(t);
      ExecConcat(s, run, rest);
      assert ReuseWindow(Exec(s, run + rest), TrackerExits);
    }
  }

  // ---------- Stop comes to an end ----------

  /** From any state Stop can get to the close of stopCh, whoever is in its way. */
  lemma StopCanClose(s: State) returns (run: seq<Step>, t: State)
    requires Inv(s)
    ensures t == Exec(s, run) && Inv(t) && t.closed
  {
    run, t := [], s;
    if s.stopper == NotStopping {
      run, t := ReleaseReaders(s);
      InvStays(s, run);
      ExecMore(s, run, OfStop(Lock));
      run := run + [OfStop(Lock)];
      t := TakeWriteLock(t);
    }
    if WriterHolds(t) {
      var close := CloseStopCh(t);
      ExecConcat(s, run, close);
      run, t := run + close, Exec(t, close);
    } else if t.stopper == Unlocked {
      ExecMore(s, run, OfStop(Close));
      run, t := run + [OfStop(Close)], Do(t, OfStop(Close));
    }
    InvStays(s, run);
  }

  /**
   From every reachable state Stop can be called, or carried on, and return, with
   the main loop and all flushes done and every accepted request answered.
   */
  lemma StopCanReturn(s: State) returns (run: seq<Step>)
    requires Inv(s)
    ensures ShutDown(Exec(s, run)) && EveryoneAnswered(Exec(s, run))
  {
    var close, t := StopCanClose(s);
    var rest := ShutdownCompletes(t);
    ExecConcat(s, close, rest);
    run := close + rest;
    InvStays(s, run);
    AnsweredIffIdle(Exec(s, run));
  }
}
