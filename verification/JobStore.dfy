/**
 Job stores: the in-memory store of runtime/async_store.go, its reaper and
 cleanup, and the two-statement reap of runtime/async_store_pg.go compared with
 the single pass in memory.
 */
module JobStores {
  import opened Options

  type Value(==,!new)

  datatype Status = Pending | Processing | Completed | Failed

  datatype Job = Job(status: Status, result: Option<Value>, error: string, createdAt: int, updatedAt: int, retries: nat,
                     deadline: Option<int>)

  type Jobs = map<string, Job>

  const TOO_MANY: string := "max retries exceeded"

  const LIMIT: nat := 100

  // ------------------------------------------------------------------ operations

  function Created(jobs: Jobs, id: string, now: int): (r: Jobs)
  {
    jobs[id := Job(Pending, None, "", now, now, 0, None)]
  }

  function Updated(jobs: Jobs, id: string, status: Status, result: Option<Value>, error: string, now: int, timeout: int): (r: Jobs)
  {
    if id !in jobs then jobs
    else
      var deadline := if status == Processing then Some(now + timeout) else None;
      jobs[id := jobs[id].(status := status, result := result, error := error, updatedAt := now, deadline := deadline)]
  }

  /** A stuck job: processing, with a deadline that has passed or is now. */
  predicate Expired(j: Job, now: int)
  {
    j.status == Processing && j.deadline.Some? && j.deadline.value <= now
  }

  /** What the reaper makes of a stuck job: back to pending, or failed when its retries are used up. */
  function Reaped(j: Job, now: int, maxRetries: int): (r: Job)
  {
    if j.retries >= maxRetries then j.(status := Failed, error := TOO_MANY, deadline := None, updatedAt := now)
    else j.(status := Pending, retries := j.retries + 1, deadline := None, updatedAt := now)
  }

  function ReapedOrKept(j: Job, now: int, maxRetries: int): (r: Job)
  {
    if Expired(j, now) then Reaped(j, now, maxRetries) else j
  }

  /** The memory store's single pass. */
  function AfterReap(jobs: Jobs, now: int, maxRetries: int): (r: Jobs)
  {
    map id | id in jobs :: ReapedOrKept(jobs[id], now, maxRetries)
  }

  predicate Old(j: Job, cutoff: int)
  {
    (j.status == Completed || j.status == Failed) && j.updatedAt < cutoff
  }

  function AfterCleanup(jobs: Jobs, cutoff: int): (r: Jobs)
  {
    map id | id in jobs && !Old(jobs[id], cutoff) :: jobs[id]
  }

  // ------------------------------------------------------------------ whole runs

  datatype Op =
    | Create(id: string)
    | Update(id: string, status: Status, result: Option<Value>, error: string)
    | Delete(id: string)
    | Reap
    | Cleanup(ttl: int)

  /** One operation at a clock reading, with the store's timeout and a fixed retry limit. */
  function Do(jobs: Jobs, op: Op, now: int, timeout: int, maxRetries: int): (r: Jobs)
  {
    match op
    case Create(id) => Created(jobs, id, now)
    case Update(id, status, result, error) => Updated(jobs, id, status, result, error, now, timeout)
    case Delete(id) => jobs - {id}
    case Reap => AfterReap(jobs, now, maxRetries)
    case Cleanup(ttl) => AfterCleanup(jobs, now - ttl)
  }

  datatype Timed = Timed(op: Op, now: int)

  /** The store after the first n operations of a run. */
  function After(run: seq<Timed>, n: nat, timeout: int, maxRetries: int): (jobs: Jobs)
    requires n <= |run|
  {
    if n == 0 then map[] else Do(After(run, n - 1, timeout, maxRetries), run[n - 1].op, run[n - 1].now, timeout, maxRetries)
  }

  /** A deadline exactly while processing. */
  predicate DeadlineOk(j: Job)
  {
    j.deadline.Some? <==> j.status == Processing
  }

  /** How often the reaper sent a job back to pending since it was last created. */
  function SentBack(run: seq<Timed>, n: nat, id: string, timeout: int, maxRetries: int): (k: nat)
    requires n <= |run|
  {
    if n == 0 then 0
    else
      var jobs, op := After(run, n - 1, timeout, maxRetries), run[n - 1].op;
      if op == Create(id) then 0
      else
        var back := op.Reap? && id in jobs && Expired(jobs[id], run[n - 1].now) && jobs[id].retries < maxRetries;
        SentBack(run, n - 1, id, timeout, maxRetries) + if back then 1 else 0
  }

  /**
   In every run a deadline is set exactly while a job is processing, and the
   retry count is the number of times the reaper sent the job back since its
   creation, never more than the limit.
   */
  lemma {:induction false} JobsSound(run: seq<Timed>, n: nat, id: string, timeout: int, maxRetries: int)
    requires n <= |run| && id in After(run, n, timeout, maxRetries)
    ensures var j := After(run, n, timeout, maxRetries)[id];
      && DeadlineOk(j) && j.retries == SentBack(run, n, id, timeout, maxRetries)
      && (j.retries == 0 || j.retries <= maxRetries)
  {
    if n > 0 && id in After(run, n - 1, timeout, maxRetries) && run[n - 1].op != Create(id) {
      JobsSound(run, n - 1, id, timeout, maxRetries);
    }
  }

  /** The reaper gives a stuck job up exactly when it was sent back as often as allowed since its creation. */
  lemma {:induction false} GivenUpExactly(run: seq<Timed>, n: nat, id: string, timeout: int, maxRetries: nat)
    requires n < |run| && run[n].op.Reap? && id in After(run, n, timeout, maxRetries)
    requires Expired(After(run, n, timeout, maxRetries)[id], run[n].now)
    ensures id in After(run, n + 1, timeout, maxRetries)
    ensures After(run, n + 1, timeout, maxRetries)[id].status
         == if SentBack(run, n, id, timeout, maxRetries) == maxRetries then Failed else Pending
  {
    JobsSound(run, n, id, timeout, maxRetries);
  }

  /** A created job is pending, without a result, an error or a deadline, and with no retries; the others are as they were. */
  lemma {:induction false} CreateEffect(jobs: Jobs, id: string, now: int, timeout: int, maxRetries: int, other: string)
    ensures var jobs' := Do(jobs, Create(id), now, timeout, maxRetries);
      && id in jobs' && jobs'[id].status == Pending && jobs'[id].result == None && jobs'[id].error == ""
      && jobs'[id].deadline == None && jobs'[id].retries == 0 && jobs'[id].createdAt == now == jobs'[id].updatedAt
      && (other != id ==> (other in jobs' <==> other in jobs) && (other in jobs ==> jobs'[other] == jobs[other]))
  {
  }

  /**
   What a reap leaves: a job that is processing past or at its deadline has none
   any more and the instant as its time of update.  With retries left it is
   pending, one retry later, its result and error as they were; without, it is
   failed with the message.  Every other job is as it was, and none comes or goes.
   */
  lemma {:induction false} ReapEffect(jobs: Jobs, id: string, now: int, timeout: int, maxRetries: int)
    ensures var jobs' := Do(jobs, Reap, now, timeout, maxRetries);
      && (id in jobs' <==> id in jobs)
      && (id in jobs ==>
            var j, j' := jobs[id], jobs'[id];
            if j.status == Processing && j.deadline.Some? && j.deadline.value <= now then
              && j'.deadline == None && j'.updatedAt == now && j'.result == j.result && j'.createdAt == j.createdAt
              && (j.retries < maxRetries ==> j'.status == Pending && j'.retries == j.retries + 1 && j'.error == j.error)
              && (j.retries >= maxRetries ==> j'.status == Failed && j'.retries == j.retries && j'.error == "max retries exceeded")
            else j' == j)
  {
  }

  /** A cleanup drops exactly the completed and failed jobs not updated within the time to live, and changes no other. */
  lemma {:induction false} CleanupEffect(jobs: Jobs, ttl: int, now: int, timeout: int, maxRetries: int, id: string)
    ensures var jobs' := Do(jobs, Cleanup(ttl), now, timeout, maxRetries);
      && (id in jobs' <==>
            id in jobs && !((jobs[id].status == Completed || jobs[id].status == Failed) && now - jobs[id].updatedAt > ttl))
      && (id in jobs' ==> jobs'[id] == jobs[id])
  {
  }

  /**
   What an Update leaves in the store: the job has the status, the result and the
   error that were given, the clock reading as its time of update, its creation
   time and retry count as before, and while processing a deadline exactly the
   timeout later; every other job is as it was.  An unknown job is not created.
   */
  lemma {:induction false} UpdateEffect(jobs: Jobs, id: string, status: Status, result: Option<Value>, error: string,
                                        now: int, timeout: int, maxRetries: int, other: string)
    ensures var jobs' := Do(jobs, Update(id, status, result, error), now, timeout, maxRetries);
      && (other in jobs' <==> other in jobs)
      && (other in jobs && other != id ==> jobs'[other] == jobs[other])
      && (id in jobs ==>
            var j, j' := jobs[id], jobs'[id];
            && j'.status == status && j'.result == result && j'.error == error && j'.updatedAt == now
            && j'.createdAt == j.createdAt && j'.retries == j.retries
            && (j'.deadline.Some? <==> status == Processing) && (j'.deadline.Some? ==> j'.deadline.value == now + timeout))
  {
  }

  /**
   A job set to processing and left alone is stuck exactly from the timeout on:
   a reap before leaves it, a reap from then on takes it out of processing.
   */
  lemma {:induction false} StuckExactlyAfterTimeout(jobs: Jobs, id: string, result: Option<Value>, error: string,
                                                    now: int, later: int, timeout: int, maxRetries: int)
    requires id in jobs
    ensures var jobs1 := Do(jobs, Update(id, Processing, result, error), now, timeout, maxRetries);
      var jobs2 := Do(jobs1, Reap, later, timeout, maxRetries);
      id in jobs2 && (jobs2[id] == jobs1[id] <==> later < now + timeout)
  {
    var jobs1 := Do(jobs, Update(id, Processing, result, error), now, timeout, maxRetries);
    UpdateEffect(jobs, id, Processing, result, error, now, timeout, maxRetries, id);
    var j := jobs1[id];
    assert Reaped(j, later, maxRetries).status != j.status;
  }

  /** A job disappears only by deletion or, once terminal and old enough, by cleanup. */
  lemma {:induction false} OnlyTerminalDropped(jobs: Jobs, op: Op, now: int, timeout: int, maxRetries: int, id: string)
    requires id in jobs
    ensures id !in Do(jobs, op, now, timeout, maxRetries) <==>
      op == Delete(id) || (op.Cleanup? && Old(jobs[id], now - op.ttl))
    ensures op.Cleanup? && id in Do(jobs, op, now, timeout, maxRetries) ==> Do(jobs, op, now, timeout, maxRetries)[id] == jobs[id]
  {
  }

  /** After a reap no job is stuck, and a second reap at the same instant changes nothing. */
  lemma {:induction false} ReapIdempotent(jobs: Jobs, now: int, maxRetries: int)
    ensures forall id :: id in AfterReap(jobs, now, maxRetries) ==> !Expired(AfterReap(jobs, now, maxRetries)[id], now)
    ensures AfterReap(AfterReap(jobs, now, maxRetries), now, maxRetries) == AfterReap(jobs, now, maxRetries)
  {
    var r := AfterReap(jobs, now, maxRetries);
    forall id | id in r ensures !Expired(r[id], now) {
      assert r[id] == ReapedOrKept(jobs[id], now, maxRetries);
    }
    assert forall id :: id in r ==> ReapedOrKept(r[id], now, maxRetries) == r[id];
  }

  // ---------------------------------------------------------- the PostgreSQL reap

  /** The statements compare the deadline strictly. */
  predicate Overdue(j: Job, now: int)
  {
    j.status == Processing && j.deadline.Some? && j.deadline.value < now
  }

  function Overdues(jobs: Jobs, now: int): (ids: set<string>)
  {
    set id | id in jobs && Overdue(jobs[id], now)
  }

  /** The jobs the first statement may select, and those of the second. */
  function Retryable(jobs: Jobs, now: int, maxRetries: int): (ids: set<string>)
  {
    set id | id in jobs && Overdue(jobs[id], now) && jobs[id].retries < maxRetries
  }

  function Exhausted(jobs: Jobs, now: int, maxRetries: int): (ids: set<string>)
  {
    set id | id in jobs && Overdue(jobs[id], now) && jobs[id].retries >= maxRetries
  }

  /** Updating the selected jobs. */
  function ReapChosen(jobs: Jobs, chosen: set<string>, now: int, maxRetries: int): (r: Jobs)
  {
    map id | id in jobs :: if id in chosen then Reaped(jobs[id], now, maxRetries) else jobs[id]
  }

  predicate Limited(chosen: set<string>, from: set<string>)
  {
    chosen <= from && |chosen| == if |from| < LIMIT then |from| else LIMIT
  }

  /**
   One call: up to a hundred jobs that are retryable when the first statement
   runs, then up to a hundred that are exhausted when the second one runs, as the
   engine picks them.
   */
  ghost predicate Round(jobs: Jobs, next: Jobs, first: int, second: int, maxRetries: int)
  {
    exists a, b ::
      && Limited(a, Retryable(jobs, first, maxRetries))
      && Limited(b, Exhausted(ReapChosen(jobs, a, first, maxRetries), second, maxRetries))
      && next == ReapChosen(ReapChosen(jobs, a, first, maxRetries), b, second, maxRetries)
  }

  /** The jobs that are not as they were. */
  function Changed(jobs: Jobs, next: Jobs): (ids: set<string>)
  {
    set id | id in jobs && !(id in next && next[id] == jobs[id])
  }

  /** The chosen jobs, and only those, change. */
  lemma {:induction false} ChosenChanged(jobs: Jobs, a: set<string>, b: set<string>, first: int, second: int, maxRetries: int)
    requires a <= Retryable(jobs, first, maxRetries)
    requires b <= Exhausted(ReapChosen(jobs, a, first, maxRetries), second, maxRetries)
    ensures |Changed(jobs, ReapChosen(ReapChosen(jobs, a, first, maxRetries), b, second, maxRetries))| == |a| + |b|
  {
    var mid := ReapChosen(jobs, a, first, maxRetries);
    var next := ReapChosen(mid, b, second, maxRetries);
    SecondUnaffected(jobs, a, first, second, maxRetries);
    assert a !! b;
    forall id ensures id in Changed(jobs, next) <==> id in a + b {
      if id in a || id in b {
        assert id in jobs && jobs[id].status == Processing;
        assert next[id].status != Processing;
      }
    }
    assert Changed(jobs, next) == a + b;
  }

  /** Every overdue job reaped. */
  function AllOverdueReaped(jobs: Jobs, now: int, maxRetries: int): (r: Jobs)
  {
    ReapChosen(jobs, Overdues(jobs, now), now, maxRetries)
  }

  /** Reaping some overdue jobs leaves the others overdue and the final result as it was. */
  lemma {:induction false} ChosenProgress(jobs: Jobs, chosen: set<string>, now: int, maxRetries: int)
    requires chosen <= Overdues(jobs, now)
    ensures var next := ReapChosen(jobs, chosen, now, maxRetries);
      && Overdues(next, now) == Overdues(jobs, now) - chosen
      && AllOverdueReaped(next, now, maxRetries) == AllOverdueReaped(jobs, now, maxRetries)
  {
    var next := ReapChosen(jobs, chosen, now, maxRetries);
    forall id ensures id in Overdues(next, now) <==> id in Overdues(jobs, now) - chosen {
    }
  }

  lemma {:induction false} SecondUnaffected(jobs: Jobs, a: set<string>, first: int, second: int, maxRetries: int)
    requires a <= Retryable(jobs, first, maxRetries)
    ensures Exhausted(ReapChosen(jobs, a, first, maxRetries), second, maxRetries) == Exhausted(jobs, second, maxRetries)
    ensures Retryable(ReapChosen(jobs, a, first, maxRetries), second, maxRetries) == Retryable(jobs, second, maxRetries) - a
  {
    var next := ReapChosen(jobs, a, first, maxRetries);
    forall id ensures id in Exhausted(next, second, maxRetries) <==> id in Exhausted(jobs, second, maxRetries) {
    }
    forall id ensures id in Retryable(next, second, maxRetries) <==> id in Retryable(jobs, second, maxRetries) - a {
    }
  }

  lemma {:induction false} FirstUnaffected(jobs: Jobs, b: set<string>, second: int, maxRetries: int, now: int)
    requires b <= Exhausted(jobs, second, maxRetries)
    ensures Exhausted(ReapChosen(jobs, b, second, maxRetries), now, maxRetries) == Exhausted(jobs, now, maxRetries) - b
    ensures Retryable(ReapChosen(jobs, b, second, maxRetries), now, maxRetries) == Retryable(jobs, now, maxRetries)
  {
    var next := ReapChosen(jobs, b, second, maxRetries);
    forall id ensures id in Exhausted(next, now, maxRetries) <==> id in Exhausted(jobs, now, maxRetries) - b {
    }
    forall id ensures id in Retryable(next, now, maxRetries) <==> id in Retryable(jobs, now, maxRetries) {
    }
  }

  /**
   What a call does to each job: sent back if it was retryable when the first
   statement ran and picked, failed if it was exhausted when the second one ran
   and picked, and otherwise nothing.
   */
  lemma {:induction false} RoundEffect(jobs: Jobs, next: Jobs, first: int, second: int, maxRetries: int, id: string)
    requires Round(jobs, next, first, second, maxRetries)
    ensures next.Keys == jobs.Keys
    ensures id in jobs ==>
      || next[id] == jobs[id]
      || (id in Retryable(jobs, first, maxRetries) && next[id] == Reaped(jobs[id], first, maxRetries))
      || (id in Exhausted(jobs, second, maxRetries) && next[id] == Reaped(jobs[id], second, maxRetries))
  {
    var a, b :|
      && Limited(a, Retryable(jobs, first, maxRetries))
      && Limited(b, Exhausted(ReapChosen(jobs, a, first, maxRetries), second, maxRetries))
      && next == ReapChosen(ReapChosen(jobs, a, first, maxRetries), b, second, maxRetries);
    SecondUnaffected(jobs, a, first, second, maxRetries);
  }

  lemma {:induction false} TakenOut(from: set<string>, chosen: set<string>)
    requires chosen <= from
    ensures |from - chosen| == |from| - |chosen|
  {
    assert from == (from - chosen) + chosen;
  }

  /** Later, more jobs are overdue. */
  lemma {:induction false} LaterOverdue(jobs: Jobs, first: int, second: int, maxRetries: int)
    requires first <= second
    ensures Retryable(jobs, first, maxRetries) <= Retryable(jobs, second, maxRetries)
    ensures Exhausted(jobs, first, maxRetries) <= Exhausted(jobs, second, maxRetries)
  {
  }

  /**
   A call whose second statement runs no earlier than the first leaves a hundred
   fewer jobs overdue, as of the second, or none that were overdue at the first.
   */
  lemma {:induction false} RoundShrinks(jobs: Jobs, next: Jobs, first: int, second: int, maxRetries: int)
    requires Round(jobs, next, first, second, maxRetries) && first <= second
    ensures |Overdues(next, second)| + 100 <= |Overdues(jobs, second)| || Overdues(next, first) == {}
  {
    var a, b :|
      && Limited(a, Retryable(jobs, first, maxRetries))
      && Limited(b, Exhausted(ReapChosen(jobs, a, first, maxRetries), second, maxRetries))
      && next == ReapChosen(ReapChosen(jobs, a, first, maxRetries), b, second, maxRetries);
    var mid := ReapChosen(jobs, a, first, maxRetries);
    SecondUnaffected(jobs, a, first, second, maxRetries);
    SecondUnaffected(jobs, a, first, first, maxRetries);
    FirstUnaffected(mid, b, second, maxRetries, second);
    FirstUnaffected(mid, b, second, maxRetries, first);
    LaterOverdue(jobs, first, second, maxRetries);
    OverdueSplit(jobs, second, maxRetries);
    OverdueSplit(next, second, maxRetries);
    OverdueSplit(next, first, maxRetries);
    TakenOut(Retryable(jobs, second, maxRetries), a);
    TakenOut(Exhausted(jobs, second, maxRetries), b);
    WholeChosen(a, Retryable(jobs, first, maxRetries));
    WholeChosen(b, Exhausted(jobs, second, maxRetries));
  }

  /** Fewer than a hundred are all chosen. */
  lemma {:induction false} WholeChosen(chosen: set<string>, from: set<string>)
    requires Limited(chosen, from)
    ensures |chosen| >= LIMIT || chosen == from
  {
    TakenOut(from, chosen);
    if |from - chosen| == 0 {
      assert from - chosen == {};
    }
  }

  lemma {:induction false} OverdueSplit(jobs: Jobs, now: int, maxRetries: int)
    ensures Overdues(jobs, now) == Retryable(jobs, now, maxRetries) + Exhausted(jobs, now, maxRetries)
    ensures |Overdues(jobs, now)| == |Retryable(jobs, now, maxRetries)| + |Exhausted(jobs, now, maxRetries)|
  {
    var r, e := Retryable(jobs, now, maxRetries), Exhausted(jobs, now, maxRetries);
    assert Overdues(jobs, now) == r + e;
    assert r !! e;
  }

  /** A round keeps the final result and leaves a hundred fewer overdue jobs, or none. */
  lemma {:induction false} RoundProgress(jobs: Jobs, next: Jobs, now: int, maxRetries: int)
    requires Round(jobs, next, now, now, maxRetries)
    ensures AllOverdueReaped(next, now, maxRetries) == AllOverdueReaped(jobs, now, maxRetries)
    ensures |Overdues(next, now)| + LIMIT <= |Overdues(jobs, now)| || Overdues(next, now) == {}
  {
    var a, b :|
      && Limited(a, Retryable(jobs, now, maxRetries))
      && Limited(b, Exhausted(ReapChosen(jobs, a, now, maxRetries), now, maxRetries))
      && next == ReapChosen(ReapChosen(jobs, a, now, maxRetries), b, now, maxRetries);
    var mid := ReapChosen(jobs, a, now, maxRetries);
    OverdueSplit(jobs, now, maxRetries);
    ChosenProgress(jobs, a, now, maxRetries);
    SecondUnaffected(jobs, a, now, now, maxRetries);
    OverdueSplit(mid, now, maxRetries);
    ChosenProgress(mid, b, now, maxRetries);
  }

  /** After k calls at one instant, k hundreds covering the overdue jobs, all are reaped. */
  lemma {:induction false} RoundsConverge(states: seq<Jobs>, k: nat, now: int, maxRetries: int)
    requires k < |states| && forall i :: 0 <= i < |states| - 1 ==> Round(states[i], states[i + 1], now, now, maxRetries)
    ensures AllOverdueReaped(states[k], now, maxRetries) == AllOverdueReaped(states[0], now, maxRetries)
    ensures |Overdues(states[k], now)| + k * 100 <= |Overdues(states[0], now)| || Overdues(states[k], now) == {}
  {
    if k > 0 {
      RoundsConverge(states, k - 1, now, maxRetries);
      RoundProgress(states[k - 1], states[k], now, maxRetries);
    }
  }

  /** The strict comparison agrees with the memory store's exactly when no deadline is this very instant. */
  lemma {:induction false} AgreeIff(jobs: Jobs, now: int, maxRetries: int)
    ensures AllOverdueReaped(jobs, now, maxRetries) == AfterReap(jobs, now, maxRetries)
      <==> forall id :: id in jobs ==> !(jobs[id].status == Processing && jobs[id].deadline == Some(now))
  {
    var p, m := AllOverdueReaped(jobs, now, maxRetries), AfterReap(jobs, now, maxRetries);
    if id :| id in jobs && jobs[id].status == Processing && jobs[id].deadline == Some(now) {
      assert p[id] == jobs[id] && m[id] == Reaped(jobs[id], now, maxRetries);
    } else {
      forall id | id in jobs ensures p[id] == m[id] {
        assert Expired(jobs[id], now) <==> Overdue(jobs[id], now);
      }
    }
  }

  /**
   Repeating the PostgreSQL reap at one instant, whatever rows the engine
   picks, ends with the result of the memory store's single pass, if and only
   if no processing job's deadline is that very instant.
   */
  lemma {:induction false} RepeatedReapMatchesMemory(states: seq<Jobs>, k: nat, now: int, maxRetries: int)
    requires k < |states| && forall i :: 0 <= i < |states| - 1 ==> Round(states[i], states[i + 1], now, now, maxRetries)
    requires k * 100 >= |Overdues(states[0], now)|
    ensures states[k] == AfterReap(states[0], now, maxRetries)
      <==> forall id :: id in states[0] ==> !(states[0][id].status == Processing && states[0][id].deadline == Some(now))
  {
    RoundsConverge(states, k, now, maxRetries);
    assert |Overdues(states[k], now)| == 0 ==> Overdues(states[k], now) == {};
    AgreeIff(states[0], now, maxRetries);
  }

  // ------------------------------------------------------------- the memory store

  /** The jobs whose identifiers are still to be visited, as they were, and the others reaped. */
  function PartlyReaped(jobs: Jobs, left: set<string>, now: int, maxRetries: int): (r: Jobs)
  {
    map id | id in jobs :: if id in left then jobs[id] else ReapedOrKept(jobs[id], now, maxRetries)
  }

  function ExpiredIn(jobs: Jobs, left: set<string>, now: int): (ids: set<string>)
  {
    set id | id in jobs && id !in left && Expired(jobs[id], now)
  }

  lemma {:induction false} VisitNext(jobs: Jobs, left: set<string>, id: string, now: int, maxRetries: int)
    requires id in left && id in jobs
    ensures PartlyReaped(jobs, left - {id}, now, maxRetries)
         == PartlyReaped(jobs, left, now, maxRetries)[id := ReapedOrKept(jobs[id], now, maxRetries)]
    ensures ExpiredIn(jobs, left - {id}, now) == ExpiredIn(jobs, left, now) + if Expired(jobs[id], now) then {id} else {}
    ensures PartlyReaped(jobs, left, now, maxRetries)[id] == jobs[id]
    ensures id !in ExpiredIn(jobs, left, now)
  {
  }

  function PartlyCleaned(jobs: Jobs, left: set<string>, cutoff: int): (r: Jobs)
  {
    map id | id in jobs && (id in left || !Old(jobs[id], cutoff)) :: jobs[id]
  }

  class MemoryJobStore {
    var jobs: Jobs
    const processingTimeout: int

    constructor (processingTimeout: int)
      ensures jobs == map[] && this.processingTimeout == processingTimeout
    {
      jobs := map[];
      this.processingTimeout := processingTimeout;
    }

    method Create(id: string, now: int)
      modifies this
      ensures jobs == Created(old(jobs), id, now)
    {
      jobs := jobs[id := Job(Pending, None, "", now, now, 0, None)];
    }

    method Update(id: string, status: Status, result: Option<Value>, error: string, now: int)
      modifies this
      ensures jobs == Updated(old(jobs), id, status, result, error, now, processingTimeout)
    {
      if id in jobs {
        var js := jobs[id].(status := status, result := result, error := error, updatedAt := now);
        if status == Processing {
          js := js.(deadline := Some(now + processingTimeout));
        } else {
          js := js.(deadline := None);
        }
        jobs := jobs[id := js];
      }
    }

    method Delete(id: string)
      modifies this
      ensures jobs == old(jobs) - {id}
    {
      jobs := jobs - {id};
    }

    /** One pass over the jobs, in any order; the count is the number of stuck jobs. */
    method ReapStale(maxRetries: int, now: int) returns (count: nat)
      modifies this
      ensures jobs == AfterReap(old(jobs), now, maxRetries)
      ensures count == |ExpiredIn(old(jobs), {}, now)|
    {
      count := 0;
      var left := jobs.Keys;
      assert jobs == PartlyReaped(old(jobs), left, now, maxRetries);
      assert ExpiredIn(old(jobs), left, now) == {};
      while left != {}
        invariant left <= old(jobs).Keys && jobs == PartlyReaped(old(jobs), left, now, maxRetries)
        invariant count == |ExpiredIn(old(jobs), left, now)|
        decreases |left|
      {
        var id :| id in left;
        VisitNext(old(jobs), left, id, now, maxRetries);
        left := left - {id};
        var reaped := ReapOne(id, maxRetries, now);
        if reaped {
          count := count + 1;
        }
      }
    }

    /** The body of the pass for one job. */
    method ReapOne(id: string, maxRetries: int, now: int) returns (reaped: bool)
      requires id in jobs
      modifies this
      ensures jobs == old(jobs)[id := ReapedOrKept(old(jobs)[id], now, maxRetries)]
      ensures reaped <==> Expired(old(jobs)[id], now)
    {
      var js := jobs[id];
      if js.status != Processing {
        return false;
      }
      if js.deadline.None? || now < js.deadline.value {
        return false;
      }
      if js.retries >= maxRetries {
        js := js.(status := Failed, error := TOO_MANY, deadline := None, updatedAt := now);
      } else {
        js := js.(status := Pending, retries := js.retries + 1, deadline := None, updatedAt := now);
      }
      jobs := jobs[id := js];
      return true;
    }

    /** One pass over the jobs, dropping terminal ones last changed before the cutoff. */
    method Cleanup(ttl: int, now: int) returns (count: nat)
      modifies this
      ensures jobs == AfterCleanup(old(jobs), now - ttl)
      ensures |jobs| + count == |old(jobs)|
    {
      count := 0;
      var cutoff := now - ttl;
      var left := jobs.Keys;
      while left != {}
        invariant left <= old(jobs).Keys && jobs == PartlyCleaned(old(jobs), left, cutoff)
        invariant |jobs.Keys| + count == |old(jobs).Keys|
        decreases |left|
      {
        var id :| id in left;
        left := left - {id};
        if Old(jobs[id], cutoff) {
          assert (jobs - {id}).Keys == jobs.Keys - {id};
          jobs, count := jobs - {id}, count + 1;
        }
      }
    }
  }

  // --------------------------------------------------------- the PostgreSQL table

  class PgJobStore {
    var jobs: Jobs

    constructor ()
      ensures jobs == map[]
    {
      jobs := map[];
    }

    /** LIMIT 100 without an order: any hundred of the rows, or all of them. */
    static method Select(from: set<string>) returns (chosen: set<string>)
      ensures Limited(chosen, from)
    {
      chosen := {};
      var left := from;
      while left != {} && |chosen| < LIMIT
        invariant chosen + left == from && chosen !! left && |chosen| <= LIMIT
        decreases |left|
      {
        var id :| id in left;
        chosen, left := chosen + {id}, left - {id};
      }
      assert left == {} ==> chosen == from;
      assert |from| == |chosen| + |left|;
    }

    /** The two statements, each at its own instant on the table the one before left. */
    method ReapStale(maxRetries: int, first: int, second: int) returns (count: nat)
      modifies this
      ensures Round(old(jobs), jobs, first, second, maxRetries)
      ensures count == |Changed(old(jobs), jobs)| <= 200
    {
      var a := Select(Retryable(jobs, first, maxRetries));
      jobs := ReapChosen(jobs, a, first, maxRetries);
      SecondUnaffected(old(jobs), a, first, second, maxRetries);
      var b := Select(Exhausted(jobs, second, maxRetries));
      jobs := ReapChosen(jobs, b, second, maxRetries);
      count := |a| + |b|;
      ChosenChanged(old(jobs), a, b, first, second, maxRetries);
    }
  }
}
