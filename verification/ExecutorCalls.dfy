/**
 What single calls and the background flusher of the periodical executor do
 (infra/executors/periodicalexecutor.go), as runs of the state machine: a Flush,
 a Wait, an Add that fills the container, a tick, and the flusher's own end.
 */
module ExecutorCalls {
  import opened Executor

  // ------------------------------------------------------------------ short runs

  lemma {:induction false} OneStep(s: State, a: Step)
    requires Enabled(s, a)
    ensures ValidRun(s, [a]) && After(s, [a]) == Apply(s, a)
  {
    assert [a][1..] == [];
  }

  lemma {:induction false} TwoSteps(s: State, a: Step, b: Step)
    requires Enabled(s, a) && Enabled(Apply(s, a), b)
    ensures ValidRun(s, [a, b]) && After(s, [a, b]) == Apply(Apply(s, a), b)
  {
    OneStep(Apply(s, a), b);
    assert [a, b][1..] == [b];
  }

  lemma {:induction false} ThreeSteps(s: State, a: Step, b: Step, c: Step)
    requires Enabled(s, a) && Enabled(Apply(s, a), b) && Enabled(Apply(Apply(s, a), b), c)
    ensures ValidRun(s, [a, b, c]) && After(s, [a, b, c]) == Apply(Apply(Apply(s, a), b), c)
  {
    TwoSteps(Apply(s, a), b, c);
    assert [a, b, c][1..] == [b, c];
  }

  // --------------------------------------------------------------------- Flush

  function FlushSteps(i: nat): (steps: seq<Step>)
  {
    [Enter(i), Take(i), Execute(i)]
  }

  /** The state after a batch was executed, when there is one to execute. */
  function Executed(s: State, batch: Batch): (executed: seq<Batch>)
  {
    if batch == [] then s.executed else s.executed + [batch]
  }

  /** The state after goroutine i flushed the container and went on to pc. */
  function Flushed(s: State, i: nat, pc: Pc): (s': State)
    requires i < |s.threads|
  {
    s.(shared := s.shared.(container := []), executed := Executed(s, s.shared.container), threads := s.threads[i := pc])
  }

  lemma {:induction false} FlushRuns(s: State, i: nat, who: Caller)
    requires i < |s.threads| && s.threads[i] == FlushEnter(who) && !s.barrier
    ensures ValidRun(s, FlushSteps(i))
    ensures After(s, FlushSteps(i)) == Flushed(s, i, AfterFlush(who, s.shared.container != []))
  {
    var s1 := Apply(s, Enter(i));
    var s2 := Apply(s1, Take(i));
    ThreeSteps(s, Enter(i), Take(i), Execute(i));
    var s3 := Apply(s2, Execute(i));
    assert s3.threads == s.threads[i := s3.threads[i]];
  }

  /** A Flush call on its own takes the container, executes it unless it is empty, and returns. */
  lemma {:induction false} FlushReturns(s: State, i: nat)
    requires i < |s.threads| && s.threads[i] == FlushEnter(User) && !s.barrier
    ensures ValidRun(s, FlushSteps(i)) && After(s, FlushSteps(i)) == Flushed(s, i, Returned)
  {
    FlushRuns(s, i, User);
  }

  // ---------------------------------------------------------------------- Wait

  /** A Wait call on its own flushes, waits until nothing is being executed, and returns with the barrier given back. */
  lemma {:induction false} WaitReturns(s: State, i: nat)
    requires i < |s.threads| && s.threads[i] == FlushEnter(Waiter) && !s.barrier && s.waitGroup == 0
    ensures ValidRun(s, FlushSteps(i) + [Acquire(i), Release(i)])
    ensures After(s, FlushSteps(i) + [Acquire(i), Release(i)]) == Flushed(s, i, Returned)
  {
    FlushRuns(s, i, Waiter);
    var s1 := After(s, FlushSteps(i));
    TwoSteps(s1, Acquire(i), Release(i));
    RunAppend(s, FlushSteps(i), [Acquire(i), Release(i)]);
    assert s.threads[i := WaitAcquire][i := WaitHolding][i := Returned] == s.threads[i := Returned];
  }

  /** While a Wait call holds the barrier nobody enters an execution, and it cannot leave before those inside are done. */
  lemma {:induction false} WaitHoldsOff(s: State, i: nat, j: nat)
    requires i < |s.threads| && s.threads[i] == WaitAcquire && Enabled(s, Acquire(i))
    ensures var s' := Apply(s, Acquire(i));
      !Enabled(s', Enter(j)) && !Enabled(s', Acquire(j)) && (Enabled(s', Release(i)) <==> s.waitGroup == 0)
  {
  }

  // ----------------------------------------------------------------------- Add

  /** An Add that does not fill the container leaves its task there and returns, unless it has the flusher to start. */
  lemma {:induction false} AddCollects(s: State, task: Task)
    requires Sized(s) && |s.shared.container| + 1 < Capacity(s.maxTasks)
    ensures var s', a := Apply(s, BeginAdd(task)), |s.threads|;
      && s'.shared == Shared(s.shared.container + [task], true, s.shared.inflight)
      && (s.shared.guarded ==> s'.threads == s.threads + [Returned])
      && (!s.shared.guarded ==>
            Enabled(s', Spawn(a)) && Apply(s', Spawn(a)).threads == s.threads + [Returned, Select(false)])
  {
    if !s.shared.guarded {
      var s' := Apply(s, BeginAdd(task));
      assert s'.threads[|s.threads| := Returned] + [Select(false)] == s.threads + [Returned, Select(false)];
    }
  }

  function CommandSteps(a: nat, f: nat): (steps: seq<Step>)
  {
    [Receive(f), Decrement(f), Enter(f)] + [Rendezvous(f, a), Execute(f)]
  }

  /** An adder at the commander and the flusher f: its batch goes over, is confirmed and executed. */
  lemma {:induction false} CommandRuns(s: State, a: nat, f: nat)
    requires a < |s.threads| && f < |s.threads| && s.threads[a].AddSend? && s.threads[f].Select?
    requires s.commander == [] && !s.barrier && s.threads[a].batch != []
    ensures Enabled(s, Send(a)) && ValidRun(Apply(s, Send(a)), CommandSteps(a, f))
    ensures After(Apply(s, Send(a)), CommandSteps(a, f))
         == s.(shared := s.shared.(inflight := s.shared.inflight - 1), executed := s.executed + [s.threads[a].batch],
               threads := s.threads[a := Returned][f := Select(true)])
  {
    var b := s.threads[a].batch;
    var s1 := Apply(s, Send(a));
    var s4 := CommandEntered(s1, a, f, b);
    var s6 := CommandConfirmed(s4, a, f, b);
    RunAppend(s1, [Receive(f), Decrement(f), Enter(f)], [Rendezvous(f, a), Execute(f)]);
    assert s6.threads == s.threads[a := Returned][f := Select(true)];
  }

  lemma {:induction false} CommandEntered(s: State, a: nat, f: nat, b: Batch) returns (s': State)
    requires a < |s.threads| && f < |s.threads| && s.threads[a].AddConfirm? && s.threads[f].Select?
    requires s.commander == [b] && !s.barrier
    ensures ValidRun(s, [Receive(f), Decrement(f), Enter(f)]) && s' == After(s, [Receive(f), Decrement(f), Enter(f)])
    ensures s' == s.(shared := s.shared.(inflight := s.shared.inflight - 1), waitGroup := s.waitGroup + 1, commander := [],
                     threads := s.threads[f := Confirm(b)])
  {
    var s1 := Apply(s, Receive(f));
    var s2 := Apply(s1, Decrement(f));
    ThreeSteps(s, Receive(f), Decrement(f), Enter(f));
    s' := Apply(s2, Enter(f));
    assert s'.threads == s.threads[f := Confirm(b)];
  }

  lemma {:induction false} CommandConfirmed(s: State, a: nat, f: nat, b: Batch) returns (s': State)
    requires a < |s.threads| && f < |s.threads| && s.threads[a].AddConfirm? && s.threads[f] == Confirm(b) && b != []
    ensures ValidRun(s, [Rendezvous(f, a), Execute(f)]) && s' == After(s, [Rendezvous(f, a), Execute(f)])
    ensures s' == s.(waitGroup := s.waitGroup - 1, executed := s.executed + [b], threads := s.threads[a := Returned][f := Select(true)])
  {
    TwoSteps(s, Rendezvous(f, a), Execute(f));
    s' := Apply(Apply(s, Rendezvous(f, a)), Execute(f));
    assert s'.threads == s.threads[a := Returned][f := Select(true)];
  }

  /**
   An Add that fills the container, with a live flusher at its select: the full
   batch, in the order it was added, is what the flusher executes; the call
   returns when the flusher has confirmed it and not before.
   */
  lemma {:induction false} AddFills(s: State, task: Task, f: nat)
    requires Inv(s) && s.shared.guarded && |s.shared.container| + 1 == Capacity(s.maxTasks)
    requires f < |s.threads| && s.threads[f].Select? && s.commander == [] && !s.barrier
    ensures var s1, a := Apply(s, BeginAdd(task)), |s.threads|;
      && Enabled(s1, Send(a)) && !Apply(s1, Send(a)).threads[a].Returned?
      && ValidRun(Apply(s1, Send(a)), CommandSteps(a, f))
      && var s' := After(Apply(s1, Send(a)), CommandSteps(a, f));
         && s'.shared == s.shared.(container := []) && s'.executed == s.executed + [s.shared.container + [task]]
         && s'.threads == s.threads[f := Select(true)] + [Returned]
  {
    var s1, a := Apply(s, BeginAdd(task)), |s.threads|;
    CommandRuns(s1, a, f);
    var s' := After(Apply(s1, Send(a)), CommandSteps(a, f));
    assert s'.threads == s.threads[f := Select(true)] + [Returned];
  }

  /** A full batch's Add call returns only by a confirmation. */
  lemma {:induction false} ReturnsOnlyConfirmed(s: State, step: Step, a: nat)
    requires Enabled(s, step) && a < |s.threads| && (s.threads[a].AddSend? || s.threads[a].AddConfirm?)
    requires Apply(s, step).threads[a].Returned?
    ensures step.Rendezvous? && step.j == a && s.threads[step.i].Confirm?
  {
  }

  // ---------------------------------------------------------------------- ticks

  /** A tick after a command only clears the flag: the container is left to the next one. */
  lemma {:induction false} TickAfterCommand(s: State, i: nat)
    requires i < |s.threads| && s.threads[i] == Select(true)
    ensures Enabled(s, Ticked(i)) && Apply(s, Ticked(i)) == s.(threads := s.threads[i := Select(false)])
  {
  }

  /** A tick with tasks waiting executes them, and the flusher goes back to its select: it cannot quit. */
  lemma {:induction false} TickExecutes(s: State, i: nat, idle: bool)
    requires i < |s.threads| && s.threads[i] == Select(false) && !s.barrier && s.shared.container != []
    ensures ValidRun(s, [Ticked(i)] + FlushSteps(i))
    ensures var s' := After(s, [Ticked(i)] + FlushSteps(i));
      && s'.executed == s.executed + [s.shared.container] && s'.shared == s.shared.(container := [])
      && s'.threads == s.threads && !Enabled(s', TestQuit(i, idle))
  {
    var s1 := Apply(s, Ticked(i));
    FlushRuns(s1, i, Tick);
    RunCons(s, Ticked(i), FlushSteps(i));
    assert s1.threads[i := Select(false)] == s.threads;
  }

  /** The flusher's guard is cleared only by its own test, after the idle period and with nothing in flight. */
  lemma {:induction false} GuardCleared(s: State, step: Step)
    requires Enabled(s, step)
    ensures s.shared.guarded && !Apply(s, step).shared.guarded ==> step.TestQuit? && step.idle && s.shared.inflight == 0
    ensures step.TestQuit? && !(step.idle && s.shared.inflight == 0) ==>
      Apply(s, step) == s.(threads := s.threads[step.i := Select(false)])
  {
  }

  // ------------------------------------------------------------- the flusher's end

  /** The goroutines other than i have ended, nothing is under way, and i is on its way out. */
  predicate Quitting(s: State, i: nat)
  {
    && i < |s.threads| && s.commander == [] && s.shared.container == [] && s.shared.inflight == 0 && !s.barrier
    && (forall j :: 0 <= j < |s.threads| && j != i ==> s.threads[j].Returned? || s.threads[j].Exited?)
    && match s.threads[i]
       case FlushEnter(who) => who == Tick || (who == Final && !s.shared.guarded)
       case FlushTake(who) => who == Tick || (who == Final && !s.shared.guarded)
       case FlushRun(who, taken) => taken == [] && (who == Tick || (who == Final && !s.shared.guarded))
       case QuitTest => true
       case Exited => !s.shared.guarded
       case _ => false
  }

  lemma {:induction false} QuittingStep(s: State, i: nat, step: Step)
    requires Quitting(s, i) && Enabled(s, step) && Quiet(step) && (step.TestQuit? ==> step.idle)
    ensures Quitting(Apply(s, step), i) && Apply(s, step).executed == s.executed
  {
  }

  /** Every test of the run finds the idle period over. */
  predicate IdleOver(steps: seq<Step>)
  {
    forall k :: 0 <= k < |steps| && steps[k].TestQuit? ==> steps[k].idle
  }

  lemma {:induction false} QuittingAlong(s: State, i: nat, steps: seq<Step>)
    requires Quitting(s, i) && ValidRun(s, steps) && AllQuiet(steps) && IdleOver(steps)
    ensures Quitting(After(s, steps), i) && After(s, steps).executed == s.executed
    decreases |steps|
  {
    if steps != [] {
      QuietTail(steps);
      QuittingStep(s, i, steps[0]);
      forall k | 0 <= k < |steps[1..]| && steps[1..][k].TestQuit? ensures steps[1..][k].idle {
        assert steps[1..][k] == steps[k + 1];
      }
      QuittingAlong(Apply(s, steps[0]), i, steps[1..]);
    }
  }

  /** At rest there is one flusher at most. */
  lemma {:induction false} OneFlusher(s: State, i: nat, j: nat)
    requires Inv(s) && i < |s.threads| && j < |s.threads| && i != j && s.threads[i].Select?
    ensures !s.threads[j].Select?
  {
    if s.threads[j].Select? {
      var ts := s.threads[i := Returned];
      CountUpdate(s.threads, i, Returned, |s.threads|, Live);
      CountWitness(ts, j, |ts|, Live);
    }
  }

  lemma {:induction false} IdleFree(s: State)
    requires Inv(s) && Idle(s)
    ensures !s.barrier && s.shared.inflight == 0 && s.waitGroup == 0
  {
    if Count(s.threads, Holding) > 0 {
      var i := CountFind(s.threads, |s.threads|, Holding);
    }
    if Count(s.threads, Unreceived) > 0 {
      var i := CountFind(s.threads, |s.threads|, Unreceived);
    }
    if Count(s.threads, Counted) > 0 {
      var i := CountFind(s.threads, |s.threads|, Counted);
    }
  }

  lemma {:induction false} TickQuits(s: State, i: nat)
    requires Inv(s) && Idle(s) && s.shared.container == [] && i < |s.threads| && s.threads[i] == Select(false)
    ensures Quitting(DoTick(s, i), i)
  {
    IdleFree(s);
    forall j | 0 <= j < |s.threads| && j != i ensures s.threads[j].Returned? || s.threads[j].Exited? {
      OneFlusher(s, i, j);
    }
  }

  /**
   At rest with nothing left to do, a tick after the idle period ends the flusher
   in every schedule: once the goroutines rest again it has exited, no flusher is
   live, the guard is cleared, and nothing more was executed.
   */
  lemma {:induction false} EveryIdleTickQuits(s: State, i: nat, more: seq<Step>)
    requires Inv(s) && Idle(s) && s.shared.container == [] && i < |s.threads| && s.threads[i] == Select(false)
    requires ValidRun(DoTick(s, i), more) && AllQuiet(more) && IdleOver(more) && Rested(After(DoTick(s, i), more))
    ensures var s' := After(DoTick(s, i), more);
      i < |s'.threads| && s'.threads[i] == Exited && Count(s'.threads, Live) == 0 && !s'.shared.guarded && s'.executed == s.executed
  {
    var s1 := DoTick(s, i);
    var s' := After(s1, more);
    TickQuits(s, i);
    QuittingAlong(s1, i, more);
    TickKeeps(s, i);
    RunKeepsInv(s1, more);
    RestedIsIdle(s');
  }

  function QuitSteps(i: nat): (steps: seq<Step>)
  {
    ([Ticked(i)] + FlushSteps(i)) + ([TestQuit(i, true)] + FlushSteps(i))
  }

  /**
   One such schedule, step by step: the tick flushes nothing, so the test is
   reached and passed, and the last flush before the exit finds nothing either.
   */
  lemma {:induction false} QuitRun(s: State, i: nat)
    requires Inv(s) && Idle(s) && s.shared.container == [] && i < |s.threads| && s.threads[i] == Select(false)
    ensures ValidRun(s, QuitSteps(i)) && AllInternal(QuitSteps(i))
    ensures var s' := After(s, QuitSteps(i));
      && s' == s.(shared := s.shared.(guarded := false), threads := s.threads[i := Exited])
      && Inv(s') && Count(s'.threads, Live) == 0
  {
    IdleFree(s);
    var s1 := Apply(s, Ticked(i));
    FlushRuns(s1, i, Tick);
    RunCons(s, Ticked(i), FlushSteps(i));
    var s2 := After(s, [Ticked(i)] + FlushSteps(i));
    assert s2.threads == s.threads[i := QuitTest] && s2.shared == s.shared;
    FinalRun(s2, i);
    RunAppend(s, [Ticked(i)] + FlushSteps(i), [TestQuit(i, true)] + FlushSteps(i));
    assert s2.threads[i := Exited] == s.threads[i := Exited];
    RunKeepsInv(s, QuitSteps(i));
  }

  lemma {:induction false} FinalRun(s: State, i: nat)
    requires i < |s.threads| && s.threads[i] == QuitTest && s.shared.inflight == 0 && s.shared.container == [] && !s.barrier
    ensures var run := [TestQuit(i, true)] + FlushSteps(i);
      ValidRun(s, run) && After(s, run) == s.(shared := s.shared.(guarded := false), threads := s.threads[i := Exited])
  {
    var s1 := Apply(s, TestQuit(i, true));
    FlushRuns(s1, i, Final);
    RunCons(s, TestQuit(i, true), FlushSteps(i));
    assert s1.threads[i := Exited] == s.threads[i := Exited];
  }

  // --------------------------------------------------------------- the whole end

  /** Every goroutine has ended. */
  predicate Over(s: State)
  {
    forall i :: 0 <= i < |s.threads| ==> s.threads[i].Returned? || s.threads[i].Exited?
  }

  lemma {:induction false} InternalAppend(xs: seq<Step>, ys: seq<Step>)
    requires AllInternal(xs) && AllInternal(ys)
    ensures AllInternal(xs + ys)
  {
  }

  lemma {:induction false} FlusherEnds(s: State, i: nat) returns (steps: seq<Step>)
    requires Inv(s) && Idle(s) && s.shared.container == [] && i < |s.threads| && s.threads[i].Select?
    ensures ValidRun(s, steps) && AllInternal(steps) && Over(After(s, steps)) && !After(s, steps).shared.guarded
    ensures After(s, steps).executed == s.executed
  {
    forall j | 0 <= j < |s.threads| && j != i ensures s.threads[j].Returned? || s.threads[j].Exited? {
      OneFlusher(s, i, j);
    }
    if s.threads[i].commanded {
      var s1 := Apply(s, Ticked(i));
      TickKeeps(s, i);
      QuitRun(s1, i);
      RunCons(s, Ticked(i), QuitSteps(i));
      steps := [Ticked(i)] + QuitSteps(i);
    } else {
      QuitRun(s, i);
      steps := QuitSteps(i);
    }
  }

  lemma {:induction false} NoFlusherLeft(s: State)
    requires Inv(s) && Idle(s) && forall i :: 0 <= i < |s.threads| ==> !s.threads[i].Select?
    ensures Over(s) && !s.shared.guarded
  {
    if s.shared.guarded {
      var i := CountFind(s.threads, |s.threads|, Live);
    }
  }

  lemma {:induction false} CanEnd(s: State) returns (steps: seq<Step>)
    requires Inv(s)
    ensures ValidRun(s, steps) && AllInternal(steps) && Over(After(s, steps)) && !After(s, steps).shared.guarded
    ensures forall t :: FlatOcc(After(s, steps).executed, t) == Occ(s.added, t)
  {
    var finish := CanFinish(s);
    var s1 := After(s, finish);
    RunKeepsInv(s, finish);
    RunHistory(s, finish);
    InternalAddsNothing(finish);
    assert s1.added == s.added;
    forall t ensures FlatOcc(s1.executed, t) == Occ(s.added, t) {
      IdleExecutedAll(s1, t);
    }
    if i :| 0 <= i < |s1.threads| && s1.threads[i].Select? {
      var end := FlusherEnds(s1, i);
      RunAppend(s, finish, end);
      InternalAppend(finish, end);
      steps := finish + end;
    } else {
      NoFlusherLeft(s1);
      steps := finish;
    }
  }

  /**
   The executor cleans up after itself: from every reachable state, without any
   further call, it can carry on until every goroutine has ended, the flusher
   included, the guard is cleared so that a later Add starts a new flusher, and
   every task ever added has been executed exactly once.
   */
  lemma {:induction false} EverythingEnds(maxTasks: int, run: seq<Step>) returns (more: seq<Step>)
    requires ValidRun(Initial(maxTasks), run)
    ensures ValidRun(After(Initial(maxTasks), run), more) && AllInternal(more)
    ensures var s := After(After(Initial(maxTasks), run), more);
      Over(s) && !s.shared.guarded && forall t :: FlatOcc(s.executed, t) == Occ(AddedIn(run), t)
  {
    RunKeepsInv(Initial(maxTasks), run);
    RunHistory(Initial(maxTasks), run);
    var reached := After(Initial(maxTasks), run);
    assert reached.added == AddedIn(run);
    more := CanEnd(reached);
  }
}
