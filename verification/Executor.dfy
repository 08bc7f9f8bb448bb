/**
 The periodical executor (infra/executors) over its bulk container.

 Goroutines interleave at the points where they touch shared state: a locked
 region, an atomic counter, a channel, the wait group or its barrier.  Every
 such region is one step of a state machine; a run is any sequence of enabled
 steps.  The locked regions themselves are also given as methods of the
 executor object.
 */
module Executor {

  type Task(==,!new)
  type Batch = seq<Task>

  /** The fields guarded by `pe.lock`, plus the atomic in-flight counter. */
  datatype Shared = Shared(container: Batch, guarded: bool, inflight: int)

  /** The size at which a bulk container asks to be flushed: `len >= maxTasks` right after an append. */
  function Capacity(maxTasks: int): (n: nat)
  {
    if maxTasks < 1 then 1 else maxTasks
  }

  datatype AddOutcome = AddOutcome(shared: Shared, batch: Batch, full: bool, spawn: bool)

  /** addAndCheck: append; when full take the batch and count it in flight; the first adder guards. */
  function Offer(sh: Shared, maxTasks: int, task: Task): (o: AddOutcome)
  {
    var tasks := sh.container + [task];
    if |tasks| >= maxTasks then
      AddOutcome(Shared([], true, sh.inflight + 1), tasks, true, !sh.guarded)
    else
      AddOutcome(Shared(tasks, true, sh.inflight), [], false, !sh.guarded)
  }

  /** shallQuit: stop only after the idle period and with nothing in flight. */
  function QuitCheck(sh: Shared, idle: bool): (o: (Shared, bool))
  {
    if idle && sh.inflight == 0 then (sh.(guarded := false), true) else (sh, false)
  }

  // ---------------------------------------------------------------- threads

  /** Who called Flush: a user (Flush, shutdown), Wait, the ticker case, or the deferred call on exit. */
  datatype Caller = User | Waiter | Tick | Final

  /** Where a goroutine is, with its local data. */
  datatype Pc =
    // an Add call
    | AddSpawn(held: Batch, full: bool) // set `guarded`, unlocked, the flusher not yet started
    | AddSend(batch: Batch)             // at `commander <- vals`
    | AddConfirm                        // at `<-confirmChan`
    | Returned
    // a Flush call
    | FlushEnter(who: Caller)            // at enterExecution
    | FlushTake(who: Caller)             // at the locked RemoveAll
    | FlushRun(who: Caller, taken: Batch) // at executeTasks
    // the rest of a Wait call
    | WaitAcquire                       // at the barrier
    | WaitHolding                       // at `waitGroup.Wait()`, holding the barrier
    // the background flusher
    | Select(commanded: bool)           // at the select statement
    | Received(batch: Batch)            // got a batch, inflight not yet decremented
    | Entering(batch: Batch)            // at enterExecution
    | Confirm(batch: Batch)             // at `confirmChan <- placeholder`
    | RunCommand(batch: Batch)          // at executeTasks
    | QuitTest                          // at shallQuit
    | Exited

  datatype State = State(
    maxTasks: int,
    shared: Shared,
    commander: seq<Batch>,   // channel of capacity 1
    waitGroup: int,
    barrier: bool,           // held by a Wait call
    threads: seq<Pc>,
    added: Batch,            // history: every task passed to Add, in locking order
    executed: seq<Batch>     // history: every batch handed to container.Execute
  )

  function Initial(maxTasks: int): (s: State)
  {
    State(maxTasks, Shared([], false, 0), [], 0, false, [], [], [])
  }

  datatype Step =
    | BeginAdd(task: Task)       // a new goroutine runs addAndCheck
    | BeginFlush                 // a new goroutine calls Flush
    | BeginWait                  // a new goroutine calls Wait
    | Spawn(i: nat)              // the guarding adder starts the flusher
    | Send(i: nat)               // adder i puts its batch into the commander
    | Receive(i: nat)            // flusher i takes a batch out of the commander
    | Decrement(i: nat)
    | Enter(i: nat)              // enterExecution, under the barrier
    | Rendezvous(i: nat, j: nat) // flusher i confirms, adder j is released
    | Execute(i: nat)            // executeTasks, including doneExecution
    | Ticked(i: nat)
    | Take(i: nat)               // the locked RemoveAll of a Flush
    | TestQuit(i: nat, idle: bool) // shallQuit; idle: the idle period is over
    | Acquire(i: nat)            // Wait takes the barrier
    | Release(i: nat)            // the wait group is at zero: Wait gives the barrier back and returns

  predicate Enabled(s: State, step: Step)
  {
    match step
    case BeginAdd(_) => true
    case BeginFlush => true
    case BeginWait => true
    case Spawn(i) => i < |s.threads| && s.threads[i].AddSpawn?
    case Send(i) => i < |s.threads| && s.threads[i].AddSend? && |s.commander| < 1
    case Receive(i) => i < |s.threads| && s.threads[i].Select? && |s.commander| > 0
    case Decrement(i) => i < |s.threads| && s.threads[i].Received?
    case Enter(i) => i < |s.threads| && (s.threads[i].Entering? || s.threads[i].FlushEnter?) && !s.barrier
    case Rendezvous(i, j) =>
      i < |s.threads| && j < |s.threads| && s.threads[i].Confirm? && s.threads[j].AddConfirm?
    case Execute(i) => i < |s.threads| && (s.threads[i].RunCommand? || s.threads[i].FlushRun?)
    case Ticked(i) => i < |s.threads| && s.threads[i].Select?
    case Take(i) => i < |s.threads| && s.threads[i].FlushTake?
    case TestQuit(i, _) => i < |s.threads| && s.threads[i].QuitTest?
    case Acquire(i) => i < |s.threads| && s.threads[i].WaitAcquire? && !s.barrier
    case Release(i) => i < |s.threads| && s.threads[i].WaitHolding? && s.waitGroup == 0
  }

  /** Where a Flush caller continues; the ticker case looks at whether anything was executed. */
  function AfterFlush(who: Caller, ran: bool): (pc: Pc)
  {
    match who
    case User => Returned
    case Waiter => WaitAcquire
    case Tick => if ran then Select(false) else QuitTest
    case Final => Exited
  }

  function DoBeginAdd(s: State, task: Task): (s': State)
  {
    var o := Offer(s.shared, s.maxTasks, task);
    var pc := if o.spawn then AddSpawn(o.batch, o.full) else if o.full then AddSend(o.batch) else Returned;
    s.(shared := o.shared, threads := s.threads + [pc], added := s.added + [task])
  }

  function DoBeginFlush(s: State, who: Caller): (s': State)
  {
    s.(threads := s.threads + [FlushEnter(who)])
  }

  function DoSpawn(s: State, i: nat): (s': State)
    requires i < |s.threads| && s.threads[i].AddSpawn?
  {
    var pc := s.threads[i];
    s.(threads := s.threads[i := if pc.full then AddSend(pc.held) else Returned] + [Select(false)])
  }

  function DoSend(s: State, i: nat): (s': State)
    requires i < |s.threads| && s.threads[i].AddSend?
  {
    s.(commander := s.commander + [s.threads[i].batch], threads := s.threads[i := AddConfirm])
  }

  function DoReceive(s: State, i: nat): (s': State)
    requires i < |s.threads| && |s.commander| > 0
  {
    s.(commander := s.commander[1..], threads := s.threads[i := Received(s.commander[0])])
  }

  function DoDecrement(s: State, i: nat): (s': State)
    requires i < |s.threads| && s.threads[i].Received?
  {
    s.(shared := s.shared.(inflight := s.shared.inflight - 1), threads := s.threads[i := Entering(s.threads[i].batch)])
  }

  function DoEnter(s: State, i: nat): (s': State)
    requires i < |s.threads| && (s.threads[i].Entering? || s.threads[i].FlushEnter?)
  {
    var pc := s.threads[i];
    s.(waitGroup := s.waitGroup + 1,
       threads := s.threads[i := if pc.Entering? then Confirm(pc.batch) else FlushTake(pc.who)])
  }

  function DoRendezvous(s: State, i: nat, j: nat): (s': State)
    requires i < |s.threads| && j < |s.threads| && s.threads[i].Confirm?
  {
    s.(threads := s.threads[i := RunCommand(s.threads[i].batch)][j := Returned])
  }

  function DoExecute(s: State, i: nat): (s': State)
    requires i < |s.threads| && (s.threads[i].RunCommand? || s.threads[i].FlushRun?)
  {
    var pc := s.threads[i];
    var batch := if pc.RunCommand? then pc.batch else pc.taken;
    var ran := |batch| > 0;
    s.(waitGroup := s.waitGroup - 1,
       executed := if ran then s.executed + [batch] else s.executed,
       threads := s.threads[i := if pc.RunCommand? then Select(true) else AfterFlush(pc.who, ran)])
  }

  function DoTick(s: State, i: nat): (s': State)
    requires i < |s.threads| && s.threads[i].Select?
  {
    s.(threads := s.threads[i := if s.threads[i].commanded then Select(false) else FlushEnter(Tick)])
  }

  function DoTake(s: State, i: nat): (s': State)
    requires i < |s.threads| && s.threads[i].FlushTake?
  {
    s.(shared := s.shared.(container := []),
       threads := s.threads[i := FlushRun(s.threads[i].who, s.shared.container)])
  }

  function DoTestQuit(s: State, i: nat, idle: bool): (s': State)
    requires i < |s.threads|
  {
    var (sh, stop) := QuitCheck(s.shared, idle);
    s.(shared := sh, threads := s.threads[i := if stop then FlushEnter(Final) else Select(false)])
  }

  function DoAcquire(s: State, i: nat): (s': State)
    requires i < |s.threads|
  {
    s.(barrier := true, threads := s.threads[i := WaitHolding])
  }

  function DoRelease(s: State, i: nat): (s': State)
    requires i < |s.threads|
  {
    s.(barrier := false, threads := s.threads[i := Returned])
  }

  function Apply(s: State, step: Step): (s': State)
    requires Enabled(s, step)
  {
    match step
    case BeginAdd(task) => DoBeginAdd(s, task)
    case BeginFlush => DoBeginFlush(s, User)
    case BeginWait => DoBeginFlush(s, Waiter)
    case Spawn(i) => DoSpawn(s, i)
    case Send(i) => DoSend(s, i)
    case Receive(i) => DoReceive(s, i)
    case Decrement(i) => DoDecrement(s, i)
    case Enter(i) => DoEnter(s, i)
    case Rendezvous(i, j) => DoRendezvous(s, i, j)
    case Execute(i) => DoExecute(s, i)
    case Ticked(i) => DoTick(s, i)
    case Take(i) => DoTake(s, i)
    case TestQuit(i, idle) => DoTestQuit(s, i, idle)
    case Acquire(i) => DoAcquire(s, i)
    case Release(i) => DoRelease(s, i)
  }

  // ------------------------------------------------------------- accounting

  /** The roles a thread can play in the protocol. */
  datatype Role =
    | Unreceived   // holds a batch counted in `inflight`
    | Live         // the looping flusher, or the adder about to start it
    | Awaiting     // an adder waiting for its confirmation
    | Unconfirmed  // a flusher holding a batch whose adder is not confirmed yet
    | Counted      // inside enterExecution .. doneExecution
    | FinalDue     // a quitting flusher whose last RemoveAll is still to come
    | Holding      // a Wait call that holds the barrier
    | Handing      // an Add call with a full batch in its hands
    | Pending      // a batch in hand that is not counted in the wait group yet
    | Adding       // an Add call with a full batch that has not returned
    | FlushDue     // a Flush call whose RemoveAll is still to come

  predicate Plays(pc: Pc, role: Role)
  {
    match role
    case Unreceived => (pc.AddSpawn? && pc.full) || pc.AddSend? || pc.Received?
    case Live =>
      pc.AddSpawn? || pc.Select? || pc.Received? || pc.Entering? || pc.Confirm? || pc.RunCommand? || pc.QuitTest?
      || ((pc.FlushEnter? || pc.FlushTake? || pc.FlushRun?) && pc.who == Tick)
    case Awaiting => pc.AddConfirm?
    case Unconfirmed => pc.Received? || pc.Entering? || pc.Confirm?
    case Counted => pc.FlushTake? || pc.FlushRun? || pc.Confirm? || pc.RunCommand?
    case FinalDue => (pc.FlushEnter? || pc.FlushTake?) && pc.who == Final
    case Holding => pc.WaitHolding?
    case Handing => (pc.AddSpawn? && pc.full) || pc.AddSend?
    case Pending => (pc.AddSpawn? && pc.full) || pc.AddSend? || pc.Received? || pc.Entering?
    case Adding => (pc.AddSpawn? && pc.full) || pc.AddSend? || pc.AddConfirm?
    case FlushDue => pc.FlushEnter? || pc.FlushTake?
  }

  function One(b: bool): (n: nat) { if b then 1 else 0 }

  /** How many of the first n threads play the role. */
  function CountTo(threads: seq<Pc>, n: nat, role: Role): (c: nat)
    requires n <= |threads|
  {
    if n == 0 then 0 else CountTo(threads, n - 1, role) + One(Plays(threads[n - 1], role))
  }

  function Count(threads: seq<Pc>, role: Role): (n: nat)
  {
    CountTo(threads, |threads|, role)
  }

  /** The tasks a thread has in its hands. */
  function Held(pc: Pc): (b: Batch)
  {
    match pc
    case AddSpawn(held, _) => held
    case AddSend(b) => b
    case FlushRun(_, taken) => taken
    case Received(b) => b
    case Entering(b) => b
    case Confirm(b) => b
    case RunCommand(b) => b
    case _ => []
  }

  /** How often task t occurs among the first n tasks of the batch. */
  ghost function OccTo(b: Batch, n: nat, t: Task): (c: nat)
    requires n <= |b|
  {
    if n == 0 then 0 else OccTo(b, n - 1, t) + One(b[n - 1] == t)
  }

  ghost function Occ(b: Batch, t: Task): (c: nat)
  {
    OccTo(b, |b|, t)
  }

  /** How often the first n threads hold task t. */
  ghost function HeldTo(threads: seq<Pc>, n: nat, t: Task): (c: nat)
    requires n <= |threads|
  {
    if n == 0 then 0 else HeldTo(threads, n - 1, t) + Occ(Held(threads[n - 1]), t)
  }

  ghost function HeldOcc(threads: seq<Pc>, t: Task): (c: nat)
  {
    HeldTo(threads, |threads|, t)
  }

  ghost function FlatTo(batches: seq<Batch>, n: nat, t: Task): (c: nat)
    requires n <= |batches|
  {
    if n == 0 then 0 else FlatTo(batches, n - 1, t) + Occ(batches[n - 1], t)
  }

  ghost function FlatOcc(batches: seq<Batch>, t: Task): (c: nat)
  {
    FlatTo(batches, |batches|, t)
  }

  lemma {:induction false} CountUpdate(ts: seq<Pc>, i: nat, pc: Pc, n: nat, role: Role)
    requires i < |ts| && n <= |ts|
    ensures if i < n
            then CountTo(ts[i := pc], n, role) + One(Plays(ts[i], role)) == CountTo(ts, n, role) + One(Plays(pc, role))
            else CountTo(ts[i := pc], n, role) == CountTo(ts, n, role)
  {
    if n > 0 {
      CountUpdate(ts, i, pc, n - 1, role);
    }
  }

  lemma {:induction false} CountPrefix(ts: seq<Pc>, pc: Pc, n: nat, role: Role)
    requires n <= |ts|
    ensures CountTo(ts + [pc], n, role) == CountTo(ts, n, role)
  {
    if n > 0 {
      CountPrefix(ts, pc, n - 1, role);
    }
  }

  lemma {:induction false} CountFind(ts: seq<Pc>, n: nat, role: Role) returns (i: nat)
    requires n <= |ts| && CountTo(ts, n, role) > 0
    ensures i < n && Plays(ts[i], role)
  {
    if Plays(ts[n - 1], role) {
      i := n - 1;
    } else {
      i := CountFind(ts, n - 1, role);
    }
  }

  lemma {:induction false} HeldUpdate(ts: seq<Pc>, i: nat, pc: Pc, n: nat, t: Task)
    requires i < |ts| && n <= |ts|
    ensures if i < n
            then HeldTo(ts[i := pc], n, t) + Occ(Held(ts[i]), t) == HeldTo(ts, n, t) + Occ(Held(pc), t)
            else HeldTo(ts[i := pc], n, t) == HeldTo(ts, n, t)
  {
    if n > 0 {
      HeldUpdate(ts, i, pc, n - 1, t);
    }
  }

  lemma {:induction false} HeldPrefix(ts: seq<Pc>, pc: Pc, n: nat, t: Task)
    requires n <= |ts|
    ensures HeldTo(ts + [pc], n, t) == HeldTo(ts, n, t)
  {
    if n > 0 {
      HeldPrefix(ts, pc, n - 1, t);
    }
  }

  lemma {:induction false} FlatPrefix(bs: seq<Batch>, b: Batch, n: nat, t: Task)
    requires n <= |bs|
    ensures FlatTo(bs + [b], n, t) == FlatTo(bs, n, t)
  {
    if n > 0 {
      FlatPrefix(bs, b, n - 1, t);
    }
  }

  lemma {:induction false} OccPrefix(b: Batch, x: Task, n: nat, t: Task)
    requires n <= |b|
    ensures OccTo(b + [x], n, t) == OccTo(b, n, t)
  {
    if n > 0 {
      OccPrefix(b, x, n - 1, t);
    }
  }

  /** A task joins the end of a batch. */
  lemma {:induction false} OccAppend(b: Batch, x: Task, t: Task)
    ensures Occ(b + [x], t) == Occ(b, t) + One(x == t)
  {
    OccPrefix(b, x, |b|, t);
  }

  /** A batch joins the end of a list of batches. */
  lemma {:induction false} FlatAppend(bs: seq<Batch>, b: Batch, t: Task)
    ensures FlatOcc(bs + [b], t) == FlatOcc(bs, t) + Occ(b, t)
  {
    FlatPrefix(bs, b, |bs|, t);
  }

  /** One thread moves: every role count changes by that thread alone. */
  lemma {:induction false} Moved(ts: seq<Pc>, i: nat, pc: Pc)
    requires i < |ts|
    ensures Count(ts[i := pc], Unreceived) + One(Plays(ts[i], Unreceived)) == Count(ts, Unreceived) + One(Plays(pc, Unreceived))
    ensures Count(ts[i := pc], Live) + One(Plays(ts[i], Live)) == Count(ts, Live) + One(Plays(pc, Live))
    ensures Count(ts[i := pc], Awaiting) + One(Plays(ts[i], Awaiting)) == Count(ts, Awaiting) + One(Plays(pc, Awaiting))
    ensures Count(ts[i := pc], Unconfirmed) + One(Plays(ts[i], Unconfirmed)) == Count(ts, Unconfirmed) + One(Plays(pc, Unconfirmed))
    ensures Count(ts[i := pc], Counted) + One(Plays(ts[i], Counted)) == Count(ts, Counted) + One(Plays(pc, Counted))
    ensures Count(ts[i := pc], FinalDue) + One(Plays(ts[i], FinalDue)) == Count(ts, FinalDue) + One(Plays(pc, FinalDue))
    ensures Count(ts[i := pc], Holding) + One(Plays(ts[i], Holding)) == Count(ts, Holding) + One(Plays(pc, Holding))
  {
    CountUpdate(ts, i, pc, |ts|, Unreceived);
    CountUpdate(ts, i, pc, |ts|, Live);
    CountUpdate(ts, i, pc, |ts|, Awaiting);
    CountUpdate(ts, i, pc, |ts|, Unconfirmed);
    CountUpdate(ts, i, pc, |ts|, Counted);
    CountUpdate(ts, i, pc, |ts|, FinalDue);
    CountUpdate(ts, i, pc, |ts|, Holding);
  }

  lemma {:induction false} Joined(ts: seq<Pc>, pc: Pc)
    ensures Count(ts + [pc], Unreceived) == Count(ts, Unreceived) + One(Plays(pc, Unreceived))
    ensures Count(ts + [pc], Live) == Count(ts, Live) + One(Plays(pc, Live))
    ensures Count(ts + [pc], Awaiting) == Count(ts, Awaiting) + One(Plays(pc, Awaiting))
    ensures Count(ts + [pc], Unconfirmed) == Count(ts, Unconfirmed) + One(Plays(pc, Unconfirmed))
    ensures Count(ts + [pc], Counted) == Count(ts, Counted) + One(Plays(pc, Counted))
    ensures Count(ts + [pc], FinalDue) == Count(ts, FinalDue) + One(Plays(pc, FinalDue))
    ensures Count(ts + [pc], Holding) == Count(ts, Holding) + One(Plays(pc, Holding))
  {
    CountPrefix(ts, pc, |ts|, Unreceived);
    CountPrefix(ts, pc, |ts|, Live);
    CountPrefix(ts, pc, |ts|, Awaiting);
    CountPrefix(ts, pc, |ts|, Unconfirmed);
    CountPrefix(ts, pc, |ts|, Counted);
    CountPrefix(ts, pc, |ts|, FinalDue);
    CountPrefix(ts, pc, |ts|, Holding);
  }

  /** One thread moves and starts another. */
  lemma {:induction false} MovedAndJoined(ts: seq<Pc>, i: nat, pc: Pc, new_pc: Pc)
    requires i < |ts|
    ensures Count(ts[i := pc] + [new_pc], Unreceived) + One(Plays(ts[i], Unreceived))
         == Count(ts, Unreceived) + One(Plays(pc, Unreceived)) + One(Plays(new_pc, Unreceived))
    ensures Count(ts[i := pc] + [new_pc], Live) + One(Plays(ts[i], Live))
         == Count(ts, Live) + One(Plays(pc, Live)) + One(Plays(new_pc, Live))
    ensures Count(ts[i := pc] + [new_pc], Awaiting) + One(Plays(ts[i], Awaiting))
         == Count(ts, Awaiting) + One(Plays(pc, Awaiting)) + One(Plays(new_pc, Awaiting))
    ensures Count(ts[i := pc] + [new_pc], Unconfirmed) + One(Plays(ts[i], Unconfirmed))
         == Count(ts, Unconfirmed) + One(Plays(pc, Unconfirmed)) + One(Plays(new_pc, Unconfirmed))
    ensures Count(ts[i := pc] + [new_pc], Counted) + One(Plays(ts[i], Counted))
         == Count(ts, Counted) + One(Plays(pc, Counted)) + One(Plays(new_pc, Counted))
    ensures Count(ts[i := pc] + [new_pc], FinalDue) + One(Plays(ts[i], FinalDue))
         == Count(ts, FinalDue) + One(Plays(pc, FinalDue)) + One(Plays(new_pc, FinalDue))
    ensures Count(ts[i := pc] + [new_pc], Holding) + One(Plays(ts[i], Holding))
         == Count(ts, Holding) + One(Plays(pc, Holding)) + One(Plays(new_pc, Holding))
  {
    Moved(ts, i, pc);
    Joined(ts[i := pc], new_pc);
  }

  /** Two different threads move together. */
  lemma {:induction false} MovedPair(ts: seq<Pc>, i: nat, pc: Pc, j: nat, pc2: Pc)
    requires i < |ts| && j < |ts| && i != j
    ensures Count(ts[i := pc][j := pc2], Unreceived) + One(Plays(ts[i], Unreceived)) + One(Plays(ts[j], Unreceived))
         == Count(ts, Unreceived) + One(Plays(pc, Unreceived)) + One(Plays(pc2, Unreceived))
    ensures Count(ts[i := pc][j := pc2], Live) + One(Plays(ts[i], Live)) + One(Plays(ts[j], Live))
         == Count(ts, Live) + One(Plays(pc, Live)) + One(Plays(pc2, Live))
    ensures Count(ts[i := pc][j := pc2], Awaiting) + One(Plays(ts[i], Awaiting)) + One(Plays(ts[j], Awaiting))
         == Count(ts, Awaiting) + One(Plays(pc, Awaiting)) + One(Plays(pc2, Awaiting))
    ensures Count(ts[i := pc][j := pc2], Unconfirmed) + One(Plays(ts[i], Unconfirmed)) + One(Plays(ts[j], Unconfirmed))
         == Count(ts, Unconfirmed) + One(Plays(pc, Unconfirmed)) + One(Plays(pc2, Unconfirmed))
    ensures Count(ts[i := pc][j := pc2], Counted) + One(Plays(ts[i], Counted)) + One(Plays(ts[j], Counted))
         == Count(ts, Counted) + One(Plays(pc, Counted)) + One(Plays(pc2, Counted))
    ensures Count(ts[i := pc][j := pc2], FinalDue) + One(Plays(ts[i], FinalDue)) + One(Plays(ts[j], FinalDue))
         == Count(ts, FinalDue) + One(Plays(pc, FinalDue)) + One(Plays(pc2, FinalDue))
    ensures Count(ts[i := pc][j := pc2], Holding) + One(Plays(ts[i], Holding)) + One(Plays(ts[j], Holding))
         == Count(ts, Holding) + One(Plays(pc, Holding)) + One(Plays(pc2, Holding))
  {
    Moved(ts, i, pc);
    Moved(ts[i := pc], j, pc2);
  }

  lemma {:induction false} HeldMoved(ts: seq<Pc>, i: nat, pc: Pc, t: Task)
    requires i < |ts|
    ensures HeldOcc(ts[i := pc], t) + Occ(Held(ts[i]), t) == HeldOcc(ts, t) + Occ(Held(pc), t)
  {
    HeldUpdate(ts, i, pc, |ts|, t);
  }

  lemma {:induction false} HeldJoined(ts: seq<Pc>, pc: Pc, t: Task)
    ensures HeldOcc(ts + [pc], t) == HeldOcc(ts, t) + Occ(Held(pc), t)
  {
    HeldPrefix(ts, pc, |ts|, t);
  }

  lemma {:induction false} HeldPair(ts: seq<Pc>, i: nat, pc: Pc, j: nat, pc2: Pc, t: Task)
    requires i < |ts| && j < |ts| && i != j
    ensures HeldOcc(ts[i := pc][j := pc2], t) + Occ(Held(ts[i]), t) + Occ(Held(ts[j]), t)
         == HeldOcc(ts, t) + Occ(Held(pc), t) + Occ(Held(pc2), t)
  {
    HeldMoved(ts, i, pc, t);
    HeldMoved(ts[i := pc], j, pc2, t);
  }

  // -------------------------------------------------------------- invariant

  /** Batches taken by an adder are exactly full; batches taken by a Flush are not. */
  ghost predicate PcSized(pc: Pc, cap: nat)
  {
    match pc
    case AddSpawn(held, full) => if full then |held| == cap else held == []
    case FlushRun(_, taken) => |taken| < cap
    case AddSend(b) => |b| == cap
    case Received(b) => |b| == cap
    case Entering(b) => |b| == cap
    case Confirm(b) => |b| == cap
    case RunCommand(b) => |b| == cap
    case _ => true
  }

  ghost predicate Sized(s: State)
  {
    var cap := Capacity(s.maxTasks);
    && |s.shared.container| < cap
    && (forall i :: 0 <= i < |s.threads| ==> PcSized(s.threads[i], cap))
    && (forall i :: 0 <= i < |s.commander| ==> |s.commander[i]| == cap)
    && (forall i :: 0 <= i < |s.executed| ==> 1 <= |s.executed[i]| <= cap)
  }

  ghost predicate Balanced(s: State, t: Task)
  {
    Occ(s.added, t) ==
    Occ(s.shared.container, t) + HeldOcc(s.threads, t) + FlatOcc(s.commander, t) + FlatOcc(s.executed, t)
  }

  /** Every task added is in exactly one place. */
  ghost predicate Conserved(s: State)
  {
    forall t :: Balanced(s, t)
  }

  ghost predicate Counters(s: State)
  {
    && s.shared.inflight == Count(s.threads, Unreceived) + |s.commander|
    && Count(s.threads, Live) == One(s.shared.guarded)
    && (s.shared.inflight > 0 ==> s.shared.guarded)
    && Count(s.threads, Awaiting) == |s.commander| + Count(s.threads, Unconfirmed)
    && s.waitGroup == Count(s.threads, Counted)
    && Count(s.threads, Holding) == One(s.barrier)
    && |s.commander| <= 1
  }

  /** Tasks waiting in the container have someone who will flush them. */
  ghost predicate Watched(s: State)
  {
    s.shared.container != [] ==> s.shared.guarded || Count(s.threads, FinalDue) > 0
  }

  ghost predicate Inv(s: State)
  {
    Sized(s) && Conserved(s) && Counters(s) && Watched(s)
  }

  // ------------------------------------------- every step keeps the invariant

  lemma {:induction false} BeginAddKeeps(s: State, task: Task)
    requires Inv(s) && Enabled(s, BeginAdd(task))
    ensures Inv(DoBeginAdd(s, task))
  {
    var s' := DoBeginAdd(s, task);
    Joined(s.threads, s'.threads[|s.threads|]);
    assert s'.threads == s.threads + [s'.threads[|s.threads|]];
    forall t ensures Balanced(s', t) {
      assert Balanced(s, t);
      HeldJoined(s.threads, s'.threads[|s.threads|], t);
      OccAppend(s.added, task, t);
      OccAppend(s.shared.container, task, t);
    }
  }

  lemma {:induction false} BeginFlushKeeps(s: State, who: Caller)
    requires Inv(s) && (who == User || who == Waiter)
    ensures Inv(DoBeginFlush(s, who))
  {
    var s' := DoBeginFlush(s, who);
    Joined(s.threads, FlushEnter(who));
    forall t ensures Balanced(s', t) {
      assert Balanced(s, t);
      HeldJoined(s.threads, FlushEnter(who), t);
    }
  }

  lemma {:induction false} SpawnKeeps(s: State, i: nat)
    requires Inv(s) && Enabled(s, Spawn(i))
    ensures Inv(DoSpawn(s, i))
  {
    var s' := DoSpawn(s, i);
    var pc := s'.threads[i];
    assert PcSized(s.threads[i], Capacity(s.maxTasks));
    MovedAndJoined(s.threads, i, pc, Select(false));
    assert s'.threads == s.threads[i := pc] + [Select(false)];
    forall t ensures Balanced(s', t) {
      assert Balanced(s, t);
      HeldMoved(s.threads, i, pc, t);
      HeldJoined(s.threads[i := pc], Select(false), t);
    }
  }

  lemma {:induction false} RendezvousBalanced(s: State, i: nat, j: nat, t: Task)
    requires Balanced(s, t) && Enabled(s, Rendezvous(i, j))
    ensures Balanced(DoRendezvous(s, i, j), t)
  {
    HeldPair(s.threads, i, RunCommand(s.threads[i].batch), j, Returned, t);
  }

  lemma {:induction false} RendezvousKeeps(s: State, i: nat, j: nat)
    requires Inv(s) && Enabled(s, Rendezvous(i, j))
    ensures Inv(DoRendezvous(s, i, j))
  {
    MovedPair(s.threads, i, RunCommand(s.threads[i].batch), j, Returned);
    forall t ensures Balanced(DoRendezvous(s, i, j), t) {
      assert Balanced(s, t);
      RendezvousBalanced(s, i, j, t);
    }
  }

  lemma {:induction false} SendKeeps(s: State, i: nat)
    requires Inv(s) && Enabled(s, Send(i))
    ensures Inv(DoSend(s, i))
  {
    var s' := DoSend(s, i);
    Moved(s.threads, i, s'.threads[i]);
    assert s'.threads == s.threads[i := s'.threads[i]];
    forall t ensures Balanced(s', t) {
      assert Balanced(s, t);
      HeldMoved(s.threads, i, s'.threads[i], t);
      FlatAppend(s.commander, s.threads[i].batch, t);
    }
  }

  lemma {:induction false} ReceiveKeeps(s: State, i: nat)
    requires Inv(s) && Enabled(s, Receive(i))
    ensures Inv(DoReceive(s, i))
  {
    var s' := DoReceive(s, i);
    Moved(s.threads, i, s'.threads[i]);
    assert s'.threads == s.threads[i := s'.threads[i]];
    forall t ensures Balanced(s', t) {
      assert Balanced(s, t);
      HeldMoved(s.threads, i, s'.threads[i], t);
      assert FlatTo(s.commander, 1, t) == FlatTo(s.commander, 0, t) + Occ(s.commander[0], t);
    }
  }

  lemma {:induction false} DecrementKeeps(s: State, i: nat)
    requires Inv(s) && Enabled(s, Decrement(i))
    ensures Inv(DoDecrement(s, i))
  {
    var s' := DoDecrement(s, i);
    Moved(s.threads, i, s'.threads[i]);
    assert s'.threads == s.threads[i := s'.threads[i]];
    forall t ensures Balanced(s', t) {
      assert Balanced(s, t);
      HeldMoved(s.threads, i, s'.threads[i], t);
    }
  }

  lemma {:induction false} EnterKeeps(s: State, i: nat)
    requires Inv(s) && Enabled(s, Enter(i))
    ensures Inv(DoEnter(s, i))
  {
    var s' := DoEnter(s, i);
    Moved(s.threads, i, s'.threads[i]);
    assert s'.threads == s.threads[i := s'.threads[i]];
    forall t ensures Balanced(s', t) {
      assert Balanced(s, t);
      HeldMoved(s.threads, i, s'.threads[i], t);
    }
  }

  lemma {:induction false} ExecuteBalanced(s: State, i: nat, t: Task)
    requires Balanced(s, t) && Enabled(s, Execute(i))
    ensures Balanced(DoExecute(s, i), t)
  {
    HeldMoved(s.threads, i, DoExecute(s, i).threads[i], t);
    FlatAppend(s.executed, Held(s.threads[i]), t);
  }

  lemma {:induction false} ExecuteKeeps(s: State, i: nat)
    requires Inv(s) && Enabled(s, Execute(i))
    ensures Inv(DoExecute(s, i))
  {
    Moved(s.threads, i, DoExecute(s, i).threads[i]);
    forall t ensures Balanced(DoExecute(s, i), t) {
      assert Balanced(s, t);
      ExecuteBalanced(s, i, t);
    }
  }

  lemma {:induction false} TickKeeps(s: State, i: nat)
    requires Inv(s) && Enabled(s, Ticked(i))
    ensures Inv(DoTick(s, i))
  {
    var s' := DoTick(s, i);
    Moved(s.threads, i, s'.threads[i]);
    assert s'.threads == s.threads[i := s'.threads[i]];
    forall t ensures Balanced(s', t) {
      assert Balanced(s, t);
      HeldMoved(s.threads, i, s'.threads[i], t);
    }
  }

  lemma {:induction false} TakeKeeps(s: State, i: nat)
    requires Inv(s) && Enabled(s, Take(i))
    ensures Inv(DoTake(s, i))
  {
    var s' := DoTake(s, i);
    Moved(s.threads, i, s'.threads[i]);
    assert s'.threads == s.threads[i := s'.threads[i]];
    forall t ensures Balanced(s', t) {
      assert Balanced(s, t);
      HeldMoved(s.threads, i, s'.threads[i], t);
    }
  }

  lemma {:induction false} TestQuitKeeps(s: State, i: nat, idle: bool)
    requires Inv(s) && Enabled(s, TestQuit(i, idle))
    ensures Inv(DoTestQuit(s, i, idle))
  {
    var s' := DoTestQuit(s, i, idle);
    Moved(s.threads, i, s'.threads[i]);
    assert s'.threads == s.threads[i := s'.threads[i]];
    forall t ensures Balanced(s', t) {
      assert Balanced(s, t);
      HeldMoved(s.threads, i, s'.threads[i], t);
    }
  }

  lemma {:induction false} AcquireKeeps(s: State, i: nat)
    requires Inv(s) && Enabled(s, Acquire(i))
    ensures Inv(DoAcquire(s, i))
  {
    var s' := DoAcquire(s, i);
    Moved(s.threads, i, WaitHolding);
    forall t ensures Balanced(s', t) {
      assert Balanced(s, t);
      HeldMoved(s.threads, i, WaitHolding, t);
    }
  }

  lemma {:induction false} ReleaseKeeps(s: State, i: nat)
    requires Inv(s) && Enabled(s, Release(i))
    ensures Inv(DoRelease(s, i))
  {
    var s' := DoRelease(s, i);
    Moved(s.threads, i, Returned);
    forall t ensures Balanced(s', t) {
      assert Balanced(s, t);
      HeldMoved(s.threads, i, Returned, t);
    }
  }

  /** What every step of every interleaving keeps. */
  lemma {:induction false} StepKeepsInv(s: State, step: Step)
    requires Inv(s) && Enabled(s, step)
    ensures Inv(Apply(s, step))
  {
    match step {
      case BeginAdd(task) => BeginAddKeeps(s, task);
      case BeginFlush => BeginFlushKeeps(s, User);
      case BeginWait => BeginFlushKeeps(s, Waiter);
      case Spawn(i) => SpawnKeeps(s, i);
      case Send(i) => SendKeeps(s, i);
      case Receive(i) => ReceiveKeeps(s, i);
      case Decrement(i) => DecrementKeeps(s, i);
      case Enter(i) => EnterKeeps(s, i);
      case Rendezvous(i, j) => RendezvousKeeps(s, i, j);
      case Execute(i) => ExecuteKeeps(s, i);
      case Ticked(i) => TickKeeps(s, i);
      case Take(i) => TakeKeeps(s, i);
      case TestQuit(i, idle) => TestQuitKeeps(s, i, idle);
      case Acquire(i) => AcquireKeeps(s, i);
      case Release(i) => ReleaseKeeps(s, i);
    }
  }

  // ------------------------------------------------------------- whole runs

  /** Every step is enabled where it is taken. */
  predicate ValidRun(s: State, steps: seq<Step>)
    decreases |steps|
  {
    steps == [] || (Enabled(s, steps[0]) && ValidRun(Apply(s, steps[0]), steps[1..]))
  }

  function After(s: State, steps: seq<Step>): (s': State)
    requires ValidRun(s, steps)
    decreases |steps|
  {
    if steps == [] then s else After(Apply(s, steps[0]), steps[1..])
  }

  /** The tasks passed to Add during a run. */
  function AddedIn(steps: seq<Step>): (b: Batch)
  {
    if steps == [] then []
    else (if steps[0].BeginAdd? then [steps[0].task] else []) + AddedIn(steps[1..])
  }

  lemma {:induction false} StepHistory(s: State, step: Step)
    requires Enabled(s, step)
    ensures Apply(s, step).maxTasks == s.maxTasks
    ensures Apply(s, step).added == s.added + (if step.BeginAdd? then [step.task] else [])
  {
  }

  lemma {:induction false} RunKeepsInv(s: State, steps: seq<Step>)
    requires Inv(s) && ValidRun(s, steps)
    ensures Inv(After(s, steps))
    decreases |steps|
  {
    if steps != [] {
      StepKeepsInv(s, steps[0]);
      RunKeepsInv(Apply(s, steps[0]), steps[1..]);
    }
  }

  lemma {:induction false} RunHistory(s: State, steps: seq<Step>)
    requires ValidRun(s, steps)
    ensures After(s, steps).maxTasks == s.maxTasks
    ensures After(s, steps).added == s.added + AddedIn(steps)
    decreases |steps|
  {
    if steps != [] {
      StepHistory(s, steps[0]);
      RunHistory(Apply(s, steps[0]), steps[1..]);
    } else {
      assert s.added + AddedIn(steps) == s.added;
    }
  }

  lemma {:induction false} RunCons(s: State, step: Step, rest: seq<Step>)
    requires Enabled(s, step) && ValidRun(Apply(s, step), rest)
    ensures ValidRun(s, [step] + rest) && After(s, [step] + rest) == After(Apply(s, step), rest)
  {
    assert ([step] + rest)[1..] == rest;
  }

  lemma {:induction false} RunAppend(s: State, xs: seq<Step>, ys: seq<Step>)
    requires ValidRun(s, xs) && ValidRun(After(s, xs), ys)
    ensures ValidRun(s, xs + ys) && After(s, xs + ys) == After(After(s, xs), ys)
    decreases |xs|
  {
    if xs == [] {
      assert xs + ys == ys;
    } else {
      assert (xs + ys)[1..] == xs[1..] + ys;
      RunAppend(Apply(s, xs[0]), xs[1..], ys);
    }
  }

  lemma {:induction false} OccToIsMultiplicity(b: Batch, n: nat, t: Task)
    requires n <= |b|
    ensures OccTo(b, n, t) == multiset(b[..n])[t]
  {
    if n > 0 {
      OccToIsMultiplicity(b, n - 1, t);
      assert b[..n] == b[..n - 1] + [b[n - 1]];
    }
  }

  lemma {:induction false} ReachedBalance(maxTasks: int, steps: seq<Step>, t: Task)
    requires ValidRun(Initial(maxTasks), steps)
    ensures var s := After(Initial(maxTasks), steps);
      Occ(AddedIn(steps), t) == Occ(s.shared.container, t) + HeldOcc(s.threads, t) + FlatOcc(s.commander, t) + FlatOcc(s.executed, t)
  {
    var s := After(Initial(maxTasks), steps);
    RunKeepsInv(Initial(maxTasks), steps);
    RunHistory(Initial(maxTasks), steps);
    assert s.added == AddedIn(steps);
    assert Balanced(s, t);
  }

  lemma {:induction false} OccIsMultiplicity(b: Batch, t: Task)
    ensures Occ(b, t) == multiset(b)[t]
  {
    OccToIsMultiplicity(b, |b|, t);
    assert b[..|b|] == b;
  }

  /**
   In every interleaving each task passed to Add sits, with its multiplicity,
   in exactly one of: the container, a goroutine's hands, the commander, or a
   batch handed to Execute.  Nothing is lost and nothing runs twice.
   */
  lemma {:induction false} NoTaskLostOrRepeated(maxTasks: int, steps: seq<Step>, t: Task)
    requires ValidRun(Initial(maxTasks), steps)
    ensures var s := After(Initial(maxTasks), steps);
      multiset(AddedIn(steps))[t] ==
      multiset(s.shared.container)[t] + HeldOcc(s.threads, t) + FlatOcc(s.commander, t) + FlatOcc(s.executed, t)
  {
    ReachedBalance(maxTasks, steps, t);
    OccIsMultiplicity(AddedIn(steps), t);
    OccIsMultiplicity(After(Initial(maxTasks), steps).shared.container, t);
  }

  /** In every interleaving no executed batch is empty or larger than max(1, maxTasks). */
  lemma {:induction false} BatchesBounded(maxTasks: int, steps: seq<Step>, k: nat)
    requires ValidRun(Initial(maxTasks), steps)
    requires k < |After(Initial(maxTasks), steps).executed|
    ensures 1 <= |After(Initial(maxTasks), steps).executed[k]| <= Capacity(maxTasks)
  {
    RunKeepsInv(Initial(maxTasks), steps);
    RunHistory(Initial(maxTasks), steps);
  }

  /**
   The protocol counters in every reachable state: `inflight` counts the batches
   removed by adders and not yet received; while it is positive there is exactly
   one live flusher; as many adders wait for a confirmation as there are batches
   sent and not confirmed; the barrier is held by exactly one Wait call or free;
   a non-empty container is watched by a live flusher or by a quitting one whose
   last flush is still due.
   */
  lemma {:induction false} ProtocolCounters(maxTasks: int, steps: seq<Step>)
    requires ValidRun(Initial(maxTasks), steps)
    ensures var s := After(Initial(maxTasks), steps);
      && s.shared.inflight == Count(s.threads, Unreceived) + |s.commander|
      && (s.shared.inflight > 0 ==> s.shared.guarded)
      && Count(s.threads, Live) == One(s.shared.guarded)
      && Count(s.threads, Awaiting) == |s.commander| + Count(s.threads, Unconfirmed)
      && s.waitGroup == Count(s.threads, Counted) && Count(s.threads, Holding) == One(s.barrier)
      && (s.shared.container != [] ==> s.shared.guarded || Count(s.threads, FinalDue) > 0)
  {
    RunKeepsInv(Initial(maxTasks), steps);
    RunHistory(Initial(maxTasks), steps);
  }

  // ----------------------------------------------------------- no stranding

  /** An upper bound on the steps a goroutine still makes before it rests, if the ticker is silent. */
  function Weight(pc: Pc): (w: nat)
  {
    match pc
    case AddSpawn(_, _) => 9
    case AddSend(_) => 7
    case AddConfirm => 1
    case Returned => 0
    case FlushEnter(who) => FlushWeight(who) + 2
    case FlushTake(who) => FlushWeight(who) + 1
    case FlushRun(who, _) => FlushWeight(who)
    case WaitAcquire => 2
    case WaitHolding => 1
    case Select(_) => 1
    case Received(_) => 5
    case Entering(_) => 4
    case Confirm(_) => 3
    case RunCommand(_) => 2
    case QuitTest => 4
    case Exited => 0
  }

  /** The steps left at executeTasks, by what comes after it. */
  function FlushWeight(who: Caller): (w: nat)
  {
    match who
    case User => 1
    case Waiter => 3
    case Tick => 5
    case Final => 1
  }

  function WeightTo(ts: seq<Pc>, n: nat): (w: nat)
    requires n <= |ts|
  {
    if n == 0 then 0 else WeightTo(ts, n - 1) + Weight(ts[n - 1])
  }

  function Work(s: State): (w: nat)
  {
    WeightTo(s.threads, |s.threads|) + 5 * |s.commander|
  }

  lemma {:induction false} WeightUpdate(ts: seq<Pc>, i: nat, pc: Pc, n: nat)
    requires i < |ts| && n <= |ts|
    ensures if i < n
            then WeightTo(ts[i := pc], n) + Weight(ts[i]) == WeightTo(ts, n) + Weight(pc)
            else WeightTo(ts[i := pc], n) == WeightTo(ts, n)
  {
    if n > 0 {
      WeightUpdate(ts, i, pc, n - 1);
    }
  }

  lemma {:induction false} WeightPrefix(ts: seq<Pc>, pc: Pc, n: nat)
    requires n <= |ts|
    ensures WeightTo(ts + [pc], n) == WeightTo(ts, n)
  {
    if n > 0 {
      WeightPrefix(ts, pc, n - 1);
    }
  }

  lemma {:induction false} CountWitness(ts: seq<Pc>, i: nat, n: nat, role: Role)
    requires i < n <= |ts| && Plays(ts[i], role)
    ensures CountTo(ts, n, role) > 0
  {
    if i < n - 1 {
      CountWitness(ts, i, n - 1, role);
    }
  }

  predicate Resting(pc: Pc)
  {
    pc.Returned? || pc.Exited? || pc.Select?
  }

  /** No call is in progress; a live flusher waits at its select. */
  predicate Idle(s: State)
  {
    && (forall i :: 0 <= i < |s.threads| ==> Resting(s.threads[i]))
    && s.commander == []
  }

  predicate Internal(step: Step)
  {
    !step.BeginAdd? && !step.BeginFlush? && !step.BeginWait?
  }

  predicate AllInternal(steps: seq<Step>)
  {
    forall k :: 0 <= k < |steps| ==> Internal(steps[k])
  }

  /** A step of a goroutine that is already there, other than a tick. */
  predicate Quiet(step: Step)
  {
    Internal(step) && !step.Ticked?
  }

  predicate AllQuiet(steps: seq<Step>)
  {
    forall k :: 0 <= k < |steps| ==> Quiet(steps[k])
  }

  /** The goroutine that a quiet step moves, and where to. */
  lemma {:induction false} MoveWorks(s: State, i: nat, pc: Pc, s': State)
    requires i < |s.threads| && s'.threads == s.threads[i := pc]
    requires Weight(pc) + 5 * |s'.commander| < Weight(s.threads[i]) + 5 * |s.commander|
    ensures Work(s') < Work(s)
  {
    WeightUpdate(s.threads, i, pc, |s.threads|);
  }

  lemma {:induction false} SpawnWorks(s: State, i: nat)
    requires Enabled(s, Spawn(i))
    ensures Work(DoSpawn(s, i)) < Work(s)
  {
    var pc := DoSpawn(s, i).threads[i];
    WeightUpdate(s.threads, i, pc, |s.threads|);
    WeightPrefix(s.threads[i := pc], Select(false), |s.threads|);
  }

  lemma {:induction false} RendezvousWorks(s: State, i: nat, j: nat)
    requires Enabled(s, Rendezvous(i, j))
    ensures Work(DoRendezvous(s, i, j)) < Work(s)
  {
    var ts := s.threads;
    WeightUpdate(ts, i, RunCommand(ts[i].batch), |ts|);
    WeightUpdate(ts[i := RunCommand(ts[i].batch)], j, Returned, |ts|);
  }

  predicate ChannelStep(step: Step)
  {
    step.Spawn? || step.Rendezvous? || step.Send? || step.Receive? || step.Decrement?
  }

  lemma {:induction false} ChannelStepWorks(s: State, step: Step)
    requires Enabled(s, step) && ChannelStep(step)
    ensures Work(Apply(s, step)) < Work(s)
  {
    match step {
      case Spawn(i) => SpawnWorks(s, i);
      case Rendezvous(i, j) => RendezvousWorks(s, i, j);
      case Send(i) => MoveWorks(s, i, AddConfirm, DoSend(s, i));
      case Receive(i) => MoveWorks(s, i, Received(s.commander[0]), DoReceive(s, i));
      case Decrement(i) => MoveWorks(s, i, DoDecrement(s, i).threads[i], DoDecrement(s, i));
    }
  }

  /** Every step but a new call or a tick brings rest closer, whatever the schedule. */
  lemma {:induction false} QuietStepWorks(s: State, step: Step)
    requires Enabled(s, step) && Quiet(step)
    ensures Work(Apply(s, step)) < Work(s)
  {
    if ChannelStep(step) {
      ChannelStepWorks(s, step);
    } else {
      match step {
        case Enter(i) => MoveWorks(s, i, DoEnter(s, i).threads[i], DoEnter(s, i));
        case Execute(i) => MoveWorks(s, i, DoExecute(s, i).threads[i], DoExecute(s, i));
        case Take(i) => MoveWorks(s, i, DoTake(s, i).threads[i], DoTake(s, i));
        case TestQuit(i, idle) => MoveWorks(s, i, DoTestQuit(s, i, idle).threads[i], DoTestQuit(s, i, idle));
        case Acquire(i) => MoveWorks(s, i, WaitHolding, DoAcquire(s, i));
        case Release(i) => MoveWorks(s, i, Returned, DoRelease(s, i));
      }
    }
  }

  // ------------------------------------------------------------ somebody can move

  /** A goroutine that holds a batch to confirm has an adder to confirm it to. */
  lemma {:induction false} CanConfirm(s: State, i: nat) returns (step: Step)
    requires Inv(s) && i < |s.threads| && s.threads[i].Confirm?
    ensures Enabled(s, step) && step.Rendezvous?
  {
    CountWitness(s.threads, i, |s.threads|, Unconfirmed);
    var j := CountFind(s.threads, |s.threads|, Awaiting);
    step := Rendezvous(i, j);
  }

  /** A goroutine between enterExecution and doneExecution can move, barrier or not. */
  lemma {:induction false} CountedMoves(s: State, i: nat) returns (step: Step)
    requires Inv(s) && i < |s.threads| && Plays(s.threads[i], Counted)
    ensures Enabled(s, step) && Quiet(step)
  {
    match s.threads[i] {
      case FlushTake(_) => step := Take(i);
      case FlushRun(_, _) => step := Execute(i);
      case RunCommand(_) => step := Execute(i);
      case Confirm(_) => step := CanConfirm(s, i);
    }
  }

  /** While a Wait call holds the barrier, it can leave or somebody it waits for can move. */
  lemma {:induction false} BarrierMoves(s: State) returns (step: Step)
    requires Inv(s) && s.barrier
    ensures Enabled(s, step) && Quiet(step)
  {
    if s.waitGroup == 0 {
      var i := CountFind(s.threads, |s.threads|, Holding);
      step := Release(i);
    } else {
      var i := CountFind(s.threads, |s.threads|, Counted);
      step := CountedMoves(s, i);
    }
  }

  /** A step the goroutine can take on its own while the barrier is free. */
  predicate Unblocked(pc: Pc)
  {
    !Resting(pc) && !pc.AddSend? && !pc.AddConfirm? && !pc.Confirm? && !pc.WaitHolding?
  }

  function OwnStep(s: State, i: nat): (step: Step)
    requires i < |s.threads| && Unblocked(s.threads[i]) && !s.barrier
    ensures Enabled(s, step) && Quiet(step)
  {
    match s.threads[i]
    case AddSpawn(_, _) => Spawn(i)
    case FlushEnter(_) => Enter(i)
    case FlushTake(_) => Take(i)
    case FlushRun(_, _) => Execute(i)
    case Received(_) => Decrement(i)
    case Entering(_) => Enter(i)
    case RunCommand(_) => Execute(i)
    case QuitTest => TestQuit(i, false)
    case WaitAcquire => Acquire(i)
  }

  /** A goroutine waiting on a channel always has its partner: the live flusher, or an awaiting adder. */
  lemma {:induction false} PartnerStep(s: State) returns (step: Step)
    requires Inv(s) && !Idle(s) && !s.barrier
    requires forall i :: 0 <= i < |s.threads| ==> !Unblocked(s.threads[i])
    ensures Enabled(s, step) && Quiet(step)
  {
    if i :| 0 <= i < |s.threads| && s.threads[i].Confirm? {
      step := CanConfirm(s, i);
    } else if s.commander != [] {
      var i := CountFind(s.threads, |s.threads|, Live);
      step := Receive(i);
    } else if i :| 0 <= i < |s.threads| && s.threads[i].AddSend? {
      step := Send(i);
    } else {
      NobodyWaits(s);
      assert false;
    }
  }

  /** With no batch on its way, nobody waits for a confirmation or holds the barrier. */
  lemma {:induction false} NobodyWaits(s: State)
    requires Inv(s) && s.commander == [] && !s.barrier
    requires forall i :: 0 <= i < |s.threads| ==>
      !Unblocked(s.threads[i]) && !s.threads[i].Confirm? && !s.threads[i].AddSend?
    ensures Idle(s)
  {
    forall i | 0 <= i < |s.threads| ensures Resting(s.threads[i]) {
      if s.threads[i].AddConfirm? {
        CountWitness(s.threads, i, |s.threads|, Awaiting);
        var j := CountFind(s.threads, |s.threads|, Unconfirmed);
      } else if s.threads[i].WaitHolding? {
        CountWitness(s.threads, i, |s.threads|, Holding);
      }
    }
  }

  /** Unless everything rests, some goroutine can move, and moving brings rest closer. */
  lemma {:induction false} Progress(s: State) returns (step: Step)
    requires Inv(s) && !Idle(s)
    ensures Enabled(s, step) && Quiet(step) && Work(Apply(s, step)) < Work(s)
  {
    if s.barrier {
      step := BarrierMoves(s);
    } else if i :| 0 <= i < |s.threads| && Unblocked(s.threads[i]) {
      step := OwnStep(s, i);
    } else {
      step := PartnerStep(s);
    }
    QuietStepWorks(s, step);
  }

  // ----------------------------------------------------------------- every schedule

  /** No goroutine can move but by a tick. */
  ghost predicate Rested(s: State)
  {
    forall step :: Quiet(step) ==> !Enabled(s, step)
  }

  /** A run without ticks and new calls is no longer than the work at its start. */
  lemma {:induction false} QuietRunBounded(s: State, steps: seq<Step>)
    requires ValidRun(s, steps) && AllQuiet(steps)
    ensures |steps| + Work(After(s, steps)) <= Work(s)
    decreases |steps|
  {
    if steps != [] {
      QuietStepWorks(s, steps[0]);
      QuietTail(steps);
      QuietRunBounded(Apply(s, steps[0]), steps[1..]);
    }
  }

  lemma {:induction false} QuietTail(steps: seq<Step>)
    requires steps != [] && AllQuiet(steps)
    ensures Quiet(steps[0]) && AllQuiet(steps[1..])
  {
    forall k | 0 <= k < |steps[1..]| ensures Quiet(steps[1..][k]) {
      assert steps[1..][k] == steps[k + 1];
    }
  }

  /**
   From every reachable state, every schedule of the goroutines that are there
   comes to rest if the ticker is silent, after at most Work steps, and it does
   so with no call left in progress: every Add, Flush and Wait has returned.
   */
  lemma {:induction false} EveryScheduleRests(maxTasks: int, run: seq<Step>, more: seq<Step>)
    requires ValidRun(Initial(maxTasks), run) && ValidRun(After(Initial(maxTasks), run), more) && AllQuiet(more)
    ensures |more| <= Work(After(Initial(maxTasks), run))
    ensures Rested(After(After(Initial(maxTasks), run), more)) ==> Idle(After(After(Initial(maxTasks), run), more))
  {
    var s := After(Initial(maxTasks), run);
    RunKeepsInv(Initial(maxTasks), run);
    RunKeepsInv(s, more);
    QuietRunBounded(s, more);
    RestedIsIdle(After(s, more));
  }

  lemma {:induction false} RestedIsIdle(s: State)
    requires Inv(s)
    ensures Rested(s) ==> Idle(s)
  {
    if !Idle(s) {
      var step := Progress(s);
    }
  }

  /** Tasks in the container and nothing else to flush them: a Flush call is on its way to RemoveAll. */
  predicate FlushComing(s: State)
  {
    s.shared.container == [] || Count(s.threads, FlushDue) > 0
  }

  lemma {:induction false} DueMoved(s: State, i: nat, pc: Pc)
    requires i < |s.threads| && FlushComing(s) && (Plays(s.threads[i], FlushDue) ==> Plays(pc, FlushDue))
    ensures s.shared.container == [] || Count(s.threads[i := pc], FlushDue) > 0
  {
    CountUpdate(s.threads, i, pc, |s.threads|, FlushDue);
  }

  lemma {:induction false} DueSpawn(s: State, i: nat)
    requires Enabled(s, Spawn(i)) && FlushComing(s)
    ensures FlushComing(DoSpawn(s, i))
  {
    var pc := DoSpawn(s, i).threads[i];
    DueMoved(s, i, pc);
    CountPrefix(s.threads[i := pc], Select(false), |s.threads|, FlushDue);
  }

  lemma {:induction false} DueRendezvous(s: State, i: nat, j: nat)
    requires Enabled(s, Rendezvous(i, j)) && FlushComing(s)
    ensures FlushComing(DoRendezvous(s, i, j))
  {
    var pc := RunCommand(s.threads[i].batch);
    DueMoved(s, i, pc);
    DueMoved(s.(threads := s.threads[i := pc]), j, Returned);
  }

  /** Quiet steps do not lose the Flush call that is on its way. */
  lemma {:induction false} FlushStillComing(s: State, step: Step)
    requires Enabled(s, step) && Quiet(step) && FlushComing(s)
    ensures FlushComing(Apply(s, step))
  {
    match step {
      case Spawn(i) => DueSpawn(s, i);
      case Rendezvous(i, j) => DueRendezvous(s, i, j);
      case Send(i) => DueMoved(s, i, AddConfirm);
      case Receive(i) => DueMoved(s, i, Received(s.commander[0]));
      case Decrement(i) => DueMoved(s, i, DoDecrement(s, i).threads[i]);
      case Enter(i) => DueMoved(s, i, DoEnter(s, i).threads[i]);
      case Execute(i) => DueMoved(s, i, DoExecute(s, i).threads[i]);
      case Take(i) =>
      case TestQuit(i, idle) => DueMoved(s, i, DoTestQuit(s, i, idle).threads[i]);
      case Acquire(i) => DueMoved(s, i, WaitHolding);
      case Release(i) => DueMoved(s, i, Returned);
    }
  }

  lemma {:induction false} FlushComingAlong(s: State, steps: seq<Step>)
    requires ValidRun(s, steps) && AllQuiet(steps) && FlushComing(s)
    ensures FlushComing(After(s, steps))
    decreases |steps|
  {
    if steps != [] {
      QuietTail(steps);
      FlushStillComing(s, steps[0]);
      FlushComingAlong(Apply(s, steps[0]), steps[1..]);
    }
  }

  lemma {:induction false} IdleFlushed(s: State)
    requires Idle(s) && FlushComing(s)
    ensures s.shared.container == []
  {
    if Count(s.threads, FlushDue) > 0 {
      var i := CountFind(s.threads, |s.threads|, FlushDue);
    }
  }

  /**
   At rest, the tick of a flusher that was not commanded since the last one makes
   every schedule execute everything: once the goroutines rest again the
   container is empty and every task ever added has been executed exactly once.
   */
  lemma {:induction false} EveryTickFinishes(s: State, i: nat, more: seq<Step>)
    requires Inv(s) && Idle(s) && i < |s.threads| && s.threads[i] == Select(false)
    requires ValidRun(DoTick(s, i), more) && AllQuiet(more) && Rested(After(DoTick(s, i), more))
    ensures var s' := After(DoTick(s, i), more);
      Idle(s') && s'.shared.container == [] && forall t :: FlatOcc(s'.executed, t) == Occ(s.added, t)
  {
    var s1 := DoTick(s, i);
    var s' := After(s1, more);
    TickKeeps(s, i);
    RunKeepsInv(s1, more);
    RestedIsIdle(s');
    CountWitness(s1.threads, i, |s1.threads|, FlushDue);
    FlushComingAlong(s1, more);
    IdleFlushed(s');
    QuietAddsNothing(more);
    RunHistory(s1, more);
    assert s'.added == s.added;
    forall t ensures FlatOcc(s'.executed, t) == Occ(s.added, t) {
      IdleExecutedAll(s', t);
    }
  }

  lemma {:induction false} QuietAddsNothing(steps: seq<Step>)
    requires AllQuiet(steps)
    ensures AddedIn(steps) == []
    decreases |steps|
  {
    if steps != [] {
      QuietTail(steps);
      QuietAddsNothing(steps[1..]);
    }
  }

  // ------------------------------------------------------------- one such schedule

  lemma {:induction false} Settle(s: State) returns (steps: seq<Step>)
    requires Inv(s)
    ensures ValidRun(s, steps) && AllQuiet(steps) && Idle(After(s, steps))
    decreases Work(s)
  {
    if Idle(s) {
      steps := [];
    } else {
      var step := Progress(s);
      StepKeepsInv(s, step);
      var rest := Settle(Apply(s, step));
      RunCons(s, step, rest);
      steps := [step] + rest;
    }
  }

  /** At rest with tasks waiting there is a live flusher at its select. */
  lemma {:induction false} FlusherThere(s: State) returns (i: nat)
    requires Inv(s) && Idle(s) && s.shared.container != []
    ensures i < |s.threads| && s.threads[i].Select?
  {
    if Count(s.threads, FinalDue) > 0 {
      var k := CountFind(s.threads, |s.threads|, FinalDue);
    }
    i := CountFind(s.threads, |s.threads|, Live);
  }

  /** If it was commanded, one tick makes it forget that. */
  lemma {:induction false} Uncommand(s: State) returns (i: nat, steps: seq<Step>)
    requires Inv(s) && Idle(s) && s.shared.container != []
    ensures ValidRun(s, steps) && AllInternal(steps) && Inv(After(s, steps)) && Idle(After(s, steps))
    ensures i < |After(s, steps).threads| && After(s, steps).threads[i] == Select(false)
  {
    i := FlusherThere(s);
    if s.threads[i].commanded {
      steps := [Ticked(i)];
      TickKeeps(s, i);
      RunCons(s, Ticked(i), []);
      assert [Ticked(i)] + [] == steps;
    } else {
      steps := [];
    }
  }

  /** The next tick starts a flush, and the goroutines come to rest with an empty container. */
  lemma {:induction false} TickEmpties(s: State, i: nat) returns (steps: seq<Step>)
    requires Inv(s) && Idle(s) && i < |s.threads| && s.threads[i] == Select(false)
    ensures ValidRun(s, steps) && AllInternal(steps)
    ensures Idle(After(s, steps)) && After(s, steps).shared.container == []
  {
    var s1 := DoTick(s, i);
    TickKeeps(s, i);
    var rest := Settle(s1);
    CountWitness(s1.threads, i, |s1.threads|, FlushDue);
    FlushComingAlong(s1, rest);
    IdleFlushed(After(s1, rest));
    RunCons(s, Ticked(i), rest);
    steps := [Ticked(i)] + rest;
  }

  lemma {:induction false} HeldNothing(ts: seq<Pc>, n: nat, t: Task)
    requires n <= |ts| && forall i :: 0 <= i < n ==> Held(ts[i]) == []
    ensures HeldTo(ts, n, t) == 0
  {
    if n > 0 {
      HeldNothing(ts, n - 1, t);
    }
  }

  lemma {:induction false} IdleExecutedAll(s: State, t: Task)
    requires Inv(s) && Idle(s) && s.shared.container == []
    ensures FlatOcc(s.executed, t) == Occ(s.added, t)
  {
    assert Balanced(s, t);
    HeldNothing(s.threads, |s.threads|, t);
  }

  lemma {:induction false} CanFinish(s: State) returns (steps: seq<Step>)
    requires Inv(s)
    ensures ValidRun(s, steps) && AllInternal(steps)
    ensures Idle(After(s, steps)) && After(s, steps).shared.container == []
  {
    var settle := Settle(s);
    var s1 := After(s, settle);
    RunKeepsInv(s, settle);
    if s1.shared.container == [] {
      steps := settle;
    } else {
      var i, uncommand := Uncommand(s1);
      var flush := TickEmpties(After(s1, uncommand), i);
      RunAppend(s1, uncommand, flush);
      RunAppend(s, settle, uncommand + flush);
      steps := settle + (uncommand + flush);
    }
  }

  lemma {:induction false} InternalAddsNothing(steps: seq<Step>)
    requires AllInternal(steps)
    ensures AddedIn(steps) == []
    decreases |steps|
  {
    if steps != [] {
      assert Internal(steps[0]);
      forall k | 0 <= k < |steps[1..]| ensures Internal(steps[1..][k]) {
        assert steps[1..][k] == steps[k + 1];
      }
      InternalAddsNothing(steps[1..]);
    }
  }

  /**
   Nothing is ever stranded: from every reachable state, without any further
   Add or Flush call, the goroutines can carry on until every Add call has
   returned, every Wait call too, and every task ever added has been executed
   exactly once.
   */
  lemma {:induction false} NothingStranded(maxTasks: int, run: seq<Step>) returns (more: seq<Step>)
    requires ValidRun(Initial(maxTasks), run)
    ensures ValidRun(After(Initial(maxTasks), run), more) && AllInternal(more)
    ensures var s := After(After(Initial(maxTasks), run), more);
      && (forall i :: 0 <= i < |s.threads| ==> Resting(s.threads[i]))
      && (forall t :: FlatOcc(s.executed, t) == Occ(AddedIn(run), t))
  {
    RunKeepsInv(Initial(maxTasks), run);
    RunHistory(Initial(maxTasks), run);
    var reached := After(Initial(maxTasks), run);
    more := CanFinish(reached);
    RunKeepsInv(reached, more);
    RunHistory(reached, more);
    InternalAddsNothing(more);
    var s := After(reached, more);
    assert s.added == AddedIn(run);
    forall t ensures FlatOcc(s.executed, t) == Occ(AddedIn(run), t) {
      IdleExecutedAll(s, t);
    }
  }

  // ------------------------------------------------------------------------- Wait

  lemma {:induction false} CountsSplit(ts: seq<Pc>, n: nat)
    requires n <= |ts| && forall i :: 0 <= i < n ==> !ts[i].Confirm?
    ensures CountTo(ts, n, Pending) == CountTo(ts, n, Handing) + CountTo(ts, n, Unconfirmed)
    ensures CountTo(ts, n, Adding) == CountTo(ts, n, Handing) + CountTo(ts, n, Awaiting)
  {
    if n > 0 {
      CountsSplit(ts, n - 1);
    }
  }

  lemma {:induction false} NobodyCounted(s: State, i: nat)
    requires Counters(s) && s.waitGroup == 0 && i < |s.threads|
    ensures !Plays(s.threads[i], Counted)
  {
    if Plays(s.threads[i], Counted) {
      CountWitness(s.threads, i, |s.threads|, Counted);
    }
  }

  /**
   With the wait group at zero, the batches that are neither in the container nor
   executed are as many as the Add calls with a full batch that have not
   returned, and only goroutines that still have to enter hold one.
   */
  lemma {:induction false} ZeroMeansAdding(s: State)
    requires Counters(s) && Sized(s) && s.waitGroup == 0
    ensures Count(s.threads, Pending) + |s.commander| == Count(s.threads, Adding)
    ensures forall i :: 0 <= i < |s.threads| && Held(s.threads[i]) != [] ==> Plays(s.threads[i], Pending)
  {
    forall i | 0 <= i < |s.threads| ensures !Plays(s.threads[i], Counted) && PcSized(s.threads[i], Capacity(s.maxTasks)) {
      NobodyCounted(s, i);
    }
    CountsSplit(s.threads, |s.threads|);
  }

  /**
   What Wait relies on.  Whenever the wait group is at zero, which is when a Wait
   call can give the barrier back, every task added so far has been executed, is
   back in the container because it was added after the flush, or belongs to a
   batch whose Add call has not returned; there are as many such batches as such
   calls, and none if no such call is in progress.
   */
  lemma {:induction false} WaitGroupZero(maxTasks: int, run: seq<Step>, t: Task)
    requires ValidRun(Initial(maxTasks), run)
    requires After(Initial(maxTasks), run).waitGroup == 0
    ensures var s := After(Initial(maxTasks), run);
      && Occ(AddedIn(run), t)
         == Occ(s.shared.container, t) + FlatOcc(s.executed, t) + HeldOcc(s.threads, t) + FlatOcc(s.commander, t)
      && Count(s.threads, Pending) + |s.commander| == Count(s.threads, Adding)
      && (forall i :: 0 <= i < |s.threads| && Held(s.threads[i]) != [] ==> Plays(s.threads[i], Pending))
      && (Count(s.threads, Adding) == 0 ==> Occ(AddedIn(run), t) == Occ(s.shared.container, t) + FlatOcc(s.executed, t))
  {
    RunKeepsInv(Initial(maxTasks), run);
    RunHistory(Initial(maxTasks), run);
    var s := After(Initial(maxTasks), run);
    ReachedBalance(maxTasks, run, t);
    ZeroMeansAdding(s);
    if Count(s.threads, Adding) == 0 {
      forall i | 0 <= i < |s.threads| ensures Held(s.threads[i]) == [] {
        if Held(s.threads[i]) != [] {
          CountWitness(s.threads, i, |s.threads|, Pending);
        }
      }
      HeldNothing(s.threads, |s.threads|, t);
    }
  }

  // --------------------------------------------- the objects and their locks

  /** bulkContainer: the tasks collected since the last RemoveAll. */
  class BulkContainer {
    var tasks: Batch
    const maxTasks: int

    constructor (maxTasks: int)
      ensures tasks == [] && this.maxTasks == maxTasks
    {
      this.maxTasks := maxTasks;
      tasks := [];
    }

    method AddTask(task: Task) returns (full: bool)
      modifies this
      ensures tasks == old(tasks) + [task]
      ensures full <==> |tasks| >= maxTasks
    {
      tasks := tasks + [task];
      full := |tasks| >= maxTasks;
    }

    method RemoveAll() returns (taken: Batch)
      modifies this
      ensures taken == old(tasks) && tasks == []
    {
      taken := tasks;
      tasks := [];
    }
  }

  /** The regions of PeriodicalExecutor that run under `pe.lock`. */
  class PeriodicalExecutor {
    const container: BulkContainer
    var guarded: bool
    var inflight: int

    function View(): (sh: Shared)
      reads this, container
    {
      Shared(container.tasks, guarded, inflight)
    }

    constructor (container: BulkContainer)
      requires container.tasks == []
      ensures this.container == container
      ensures View() == Initial(container.maxTasks).shared
    {
      this.container := container;
      guarded := false;
      inflight := 0;
    }

    /** addAndCheck; the caller starts the background flusher when `spawn` is set. */
    method AddAndCheck(task: Task) returns (vals: Batch, full: bool, spawn: bool)
      modifies this, container
      ensures AddOutcome(View(), vals, full, spawn) == Offer(old(View()), container.maxTasks, task)
    {
      vals := [];
      full := container.AddTask(task);
      if full {
        inflight := inflight + 1;
        vals := container.RemoveAll();
      }
      spawn := !guarded;
      if !guarded {
        guarded := true;
      }
    }

    /** The locked part of Flush. */
    method TakeAll() returns (vals: Batch)
      modifies container
      ensures vals == old(View()).container && View() == old(View()).(container := [])
    {
      vals := container.RemoveAll();
    }

    method ShallQuit(idle: bool) returns (stop: bool)
      modifies this
      ensures (View(), stop) == QuitCheck(old(View()), idle)
    {
      stop := false;
      if !idle {
        return;
      }
      if inflight == 0 {
        guarded := false;
        stop := true;
      }
    }
  }
}
