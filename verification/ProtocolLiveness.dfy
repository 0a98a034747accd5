/**
 Shutdown terminates: once stopCh is closed, every step of the main loop, of a
 flush, of the tracker or of Stop shrinks the remaining work, nothing else adds to
 it, and such a step is possible until all work is done and Stop has returned.
 */
module ProtocolLiveness {
  import opened Protocol
  import opened ProtocolSafety

  function PhaseWork(p: Phase): nat {
    match p
    case Filtering(todo, live) => 3 + 5 * |todo| + 3 * |live|
    case Dropping(todo, live) => 2 + 5 * |todo| + 3 * |live|
    case Calling(live) => 2 + 3 * |live|
    case FanningOut(rest, _) => 1 + 3 * |rest|
    case Finished => 0
  }

  function MainWork(m: MainLoop): nat {
    match m
    case NotStarted => 10
    case Peeking => 8
    case Collecting(batch) => 20 + 5 * |batch|
    case Collected(batch) => 19 + 5 * |batch|
    case Draining => 1
    case Failing(_) => 4
    case Exited => 0
  }

  /** What the tracker and Stop still have to do. */
  function WaitWork(s: State): nat {
    (if s.tracking then 1 else 0) + if s.stopper == Closed then 1 else 0
  }

  /** A bound on the machine steps still to come after stopCh is closed. */
  function Work(s: State): nat {
    6 * |s.queue| + MainWork(s.main) + Sum(s.flushes, PhaseWork) + WaitWork(s)
  }

  /** All work is done, and Stop has returned. */
  predicate ShutDown(s: State) {
    Quiescent(s) && !s.tracking && s.stopper == Returned
  }

  lemma FlushStepShrinksWork(s: State, i: nat, f: FlushStep)
    requires FlushEnabled(s, i, f)
    ensures Work(FlushDo(s, i, f)) < Work(s)
  {
    FlushFrame(s, i, f);
    SumUpdate(s.flushes, i, s.flushes[i].(phase := NextPhase(s, i, f)), PhaseWork);
  }

  lemma MainStepShrinksWork(s: State, m: MainStep)
    requires s.closed && MainEnabled(s, m)
    ensures Work(MainDo(s, m)) < Work(s)
  {
  }

  /** After stopCh is closed, machine steps shrink the work and all others leave it alone. */
  lemma WorkAfterStep(s: State, a: Step)
    requires Inv(s) && s.closed
    ensures Do(s, a).closed
    ensures MachineStep(a) && Enabled(s, a) ==> Work(Do(s, a)) < Work(s)
    ensures !(MachineStep(a) && Enabled(s, a)) ==> Work(Do(s, a)) == Work(s)
  {
    if Enabled(s, a) {
      match a
      case OfMain(m) =>
        MainFrame(s, m);
        MainStepShrinksWork(s, m);
      case OfFlush(i, f) =>
        FlushFrame(s, i, f);
        FlushStepShrinksWork(s, i, f);
      case OfClient(r, c) =>
        ClientFrame(s, r, c);
        AcceptedFixedByStep(s, a);
      case OfStop(p) =>
        assert p == WaitReturns;
      case _ =>
    }
  }

  lemma UnfinishedFlush(fs: seq<Flush>) returns (i: nat)
    requires !AllFinished(fs)
    ensures i < |fs| && fs[i].phase != Finished
  {
    i :| i < |fs| && fs[i].phase != Finished;
  }

  lemma FlushCanStep(s: State, i: nat) returns (f: FlushStep)
    requires Inv(s) && i < |s.flushes| && s.flushes[i].phase != Finished
    ensures FlushEnabled(s, i, f)
  {
    match s.flushes[i].phase
    case Filtering(todo, live) =>
      if todo == [] {
        f := Call;
      } else {
        f := Check;
      }
    case Dropping(todo, live) =>
      f := Drop;
      assert PhaseHasWork(s.flushes[i].phase);
      HeadTail(todo, todo[0]);
      PendingInFlush(s.flushes, i, todo[0]);
      PendingSlotIsFree(s, todo[0]);
    case Calling(live) =>
      f := CallReturns(true);
    case FanningOut(rest, onlyErrors) =>
      f := Send(0, false);
      assert PhaseHasWork(s.flushes[i].phase);
      HeadTail(rest, rest[0]);
      PendingInFlush(s.flushes, i, rest[0]);
      PendingSlotIsFree(s, rest[0]);
  }

  lemma MainCanStep(s: State) returns (m: MainStep)
    requires Inv(s) && s.closed && s.main != Exited
    ensures MainEnabled(s, m)
  {
    match s.main
    case NotStarted => m := Start;
    case Peeking => m := Peek;
    case Collecting(_) => m := SeeStop;
    case Collected(_) => m := Dispatch;
    case Draining =>
      m := if s.queue == [] then DrainDone else DrainTake;
    case Failing(req) =>
      m := DrainSend;
      assert Occurrences([req], req) == 1;
      PendingSlotIsFree(s, req);
  }

  /** Until the end some machine step is possible: nothing is ever stuck on a channel or in the wait. */
  lemma Progress(s: State) returns (a: Step)
    requires Inv(s) && s.closed && !ShutDown(s)
    ensures MachineStep(a) && Enabled(s, a)
  {
    if s.main != Exited {
      var m := MainCanStep(s);
      a := OfMain(m);
    } else if !AllFinished(s.flushes) {
      var i := UnfinishedFlush(s.flushes);
      var f := FlushCanStep(s, i);
      a := OfFlush(i, f);
    } else {
      a := if s.tracking then TrackerExits else OfStop(WaitReturns);
    }
  }

  /** The machine steps of a schedule that took effect. */
  function MachineSteps(s: State, run: seq<Step>): nat
    decreases |run|
  {
    if run == [] then 0
    else
      var init, a := run[..|run| - 1], run[|run| - 1];
      MachineSteps(s, init) + if MachineStep(a) && Enabled(Exec(s, init), a) then 1 else 0
  }

  /** However clients, breaker and goroutines interleave after the close, the machine steps are bounded by the work. */
  lemma {:induction false} ShutdownIsBounded(s: State, run: seq<Step>)
    requires Inv(s) && s.closed
    ensures Inv(Exec(s, run)) && Exec(s, run).closed
    ensures MachineSteps(s, run) + Work(Exec(s, run)) <= Work(s)
    decreases |run|
  {
    if run != [] {
      var init, a := run[..|run| - 1], run[|run| - 1];
      ShutdownIsBounded(s, init);
      InvKept(Exec(s, init), a);
      WorkAfterStep(Exec(s, init), a);
    }
  }

  /** From any closed state the machine alone reaches the end: quiescence, and Stop's return. */
  lemma {:induction false} ShutdownCompletes(s: State) returns (run: seq<Step>)
    requires Inv(s) && s.closed
    ensures ShutDown(Exec(s, run)) && |run| <= Work(s)
    ensures forall k :: 0 <= k < |run| ==> MachineStep(run[k])
    decreases Work(s)
  {
    if ShutDown(s) {
      run := [];
    } else {
      var a := Progress(s);
      InvKept(s, a);
      WorkAfterStep(s, a);
      var rest := ShutdownCompletes(Do(s, a));
      run := [a] + rest;
      ExecConcat(s, [a], rest);
      assert [a][..0] == [];
      assert Exec(s, [a]) == Do(s, a);
    }
  }
}
