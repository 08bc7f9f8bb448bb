/**
 What the breaker of infra/breaker counts, over whole runs: the window's outcomes
 are the reports and the rejections of the run itself, and the manual switch is
 where the last use of it left it.
 */
module BreakerRuns {
  import opened RollingWindows
  import opened Breakers

  /** The interval, counted from the start, that a time falls into. */
  function IntervalOf(start: int, now: int): (i: int)
  {
    Slot(start, BUCKET_DURATION, now)
  }

  /** The operation is a report of a success, or of a failure, in one of the intervals from lo to hi. */
  predicate Reported(start: int, op: Op, ok: bool, lo: int, hi: int)
  {
    op.Report? && op.ok == ok && lo <= IntervalOf(start, op.now) < hi
  }

  /** The operation asked in one of these intervals and was rejected. */
  predicate Rejected(start: int, op: Op, passed: bool, lo: int, hi: int)
  {
    op.Ask? && !passed && lo <= IntervalOf(start, op.now) < hi
  }

  ghost function Reports(start: int, ops: seq<Op>, n: nat, ok: bool, lo: int, hi: int): (xs: set<nat>)
    requires n <= |ops|
  {
    set i: nat | i < n && Reported(start, ops[i], ok, lo, hi)
  }

  ghost function Rejections(start: int, ops: seq<Op>, passed: seq<bool>, n: nat, lo: int, hi: int): (xs: set<nat>)
    requires n <= |ops| == |passed|
  {
    set i: nat | i < n && Rejected(start, ops[i], passed[i], lo, hi)
  }

  /** The counts of a bag: failures, drops and the rest. */
  ghost predicate Counts(bag: multiset<int>, failures: int, drops: int, successes: int)
  {
    bag[FAIL] == failures && bag[DROP] == drops && |bag| == failures + drops + successes
  }

  // ----------------------------------------------------------- logs one by one

  /** The log after an operation: a report joins it as its outcome, a rejected request as a drop. */
  function Grown(start: int, op: Op, passed: bool, log: seq<Event<int>>): (r: seq<Event<int>>)
  {
    match op
    case Ask(now, _) => if passed then log else log + [Event(now, IntervalOf(start, now), DROP)]
    case Report(now, ok) => log + [Event(now, IntervalOf(start, now), if ok then SUCCESS else FAIL)]
    case _ => log
  }

  ghost predicate Chain(start: int, ops: seq<Op>, passed: seq<bool>, logs: seq<seq<Event<int>>>)
  {
    && |passed| == |ops| && |logs| == |ops| + 1 && logs[0] == []
    && forall i, j :: 0 <= i < |ops| && j == i + 1 ==> logs[j] == Grown(start, ops[i], passed[i], logs[i])
  }

  lemma {:induction false} JoinsSet(before: set<nat>, after: set<nat>, i: nat, joins: bool)
    requires i !in before && after == if joins then before + {i} else before
    ensures |after| == |before| + if joins then 1 else 0
  {
  }

  lemma {:induction false} ReportsStep(start: int, ops: seq<Op>, i: nat, ok: bool, lo: int, hi: int)
    requires i < |ops|
    ensures |Reports(start, ops, i + 1, ok, lo, hi)| == |Reports(start, ops, i, ok, lo, hi)| + if Reported(start, ops[i], ok, lo, hi) then 1 else 0
  {
    JoinsSet(Reports(start, ops, i, ok, lo, hi), Reports(start, ops, i + 1, ok, lo, hi), i, Reported(start, ops[i], ok, lo, hi));
  }

  lemma {:induction false} RejectionsStep(start: int, ops: seq<Op>, passed: seq<bool>, i: nat, lo: int, hi: int)
    requires i < |ops| == |passed|
    ensures |Rejections(start, ops, passed, i + 1, lo, hi)|
         == |Rejections(start, ops, passed, i, lo, hi)| + if Rejected(start, ops[i], passed[i], lo, hi) then 1 else 0
  {
    JoinsSet(Rejections(start, ops, passed, i, lo, hi), Rejections(start, ops, passed, i + 1, lo, hi), i,
             Rejected(start, ops[i], passed[i], lo, hi));
  }

  lemma {:induction false} OneMoreEvent(log: seq<Event<int>>, e: Event<int>, lo: int, hi: int)
    ensures Between(log + [e], lo, hi) == Between(log, lo, hi) + if lo <= e.slot < hi then [e.value] else []
  {
    BetweenPrefix(log, e, |log|, lo, hi);
  }

  lemma {:induction false} OneMoreCount(vs: seq<int>, v: int, f: int, d: int, k: int)
    requires Counts(multiset(vs), f, d, k)
    ensures Counts(multiset(vs + [v]), f + (if v == FAIL then 1 else 0), d + (if v == DROP then 1 else 0),
                   k + (if v == FAIL || v == DROP then 0 else 1))
  {
  }

  lemma {:induction false} GrownCounts(start: int, op: Op, passed: bool, log: seq<Event<int>>, lo: int, hi: int, f: int, d: int, k: int)
    requires Counts(multiset(Between(log, lo, hi)), f, d, k)
    ensures Counts(multiset(Between(Grown(start, op, passed, log), lo, hi)),
                   f + (if Reported(start, op, false, lo, hi) then 1 else 0),
                   d + (if Rejected(start, op, passed, lo, hi) then 1 else 0),
                   k + (if Reported(start, op, true, lo, hi) then 1 else 0))
  {
    var grown := Grown(start, op, passed, log);
    if grown != log {
      var e := grown[|log|];
      assert grown == log + [e];
      OneMoreEvent(log, e, lo, hi);
      if lo <= e.slot < hi {
        OneMoreCount(Between(log, lo, hi), e.value, f, d, k);
      } else {
        assert Between(log, lo, hi) + [] == Between(log, lo, hi);
      }
    }
  }

  lemma {:induction false} NothingYet(start: int, ops: seq<Op>, passed: seq<bool>, lo: int, hi: int)
    requires |passed| == |ops|
    ensures |Reports(start, ops, 0, false, lo, hi)| == |Reports(start, ops, 0, true, lo, hi)| == |Rejections(start, ops, passed, 0, lo, hi)| == 0
  {
    assert Reports(start, ops, 0, false, lo, hi) == {} && Reports(start, ops, 0, true, lo, hi) == {};
    assert Rejections(start, ops, passed, 0, lo, hi) == {};
  }

  lemma {:induction false} ChainCounts(start: int, ops: seq<Op>, passed: seq<bool>, logs: seq<seq<Event<int>>>, n: nat, lo: int, hi: int)
    requires Chain(start, ops, passed, logs) && n <= |ops|
    ensures Counts(multiset(Between(logs[n], lo, hi)), |Reports(start, ops, n, false, lo, hi)|,
                   |Rejections(start, ops, passed, n, lo, hi)|, |Reports(start, ops, n, true, lo, hi)|)
  {
    if n == 0 {
      NothingYet(start, ops, passed, lo, hi);
    } else {
      ChainCounts(start, ops, passed, logs, n - 1, lo, hi);
      CountsNext(start, ops, passed, n - 1, logs[n - 1], logs[n], lo, hi);
    }
  }

  lemma {:induction false} CountsNext(start: int, ops: seq<Op>, passed: seq<bool>, i: nat, log: seq<Event<int>>, grown: seq<Event<int>>,
                                      lo: int, hi: int)
    requires i < |ops| == |passed| && grown == Grown(start, ops[i], passed[i], log)
    requires Counts(multiset(Between(log, lo, hi)), |Reports(start, ops, i, false, lo, hi)|,
                    |Rejections(start, ops, passed, i, lo, hi)|, |Reports(start, ops, i, true, lo, hi)|)
    ensures Counts(multiset(Between(grown, lo, hi)), |Reports(start, ops, i + 1, false, lo, hi)|,
                   |Rejections(start, ops, passed, i + 1, lo, hi)|, |Reports(start, ops, i + 1, true, lo, hi)|)
  {
    ReportsStep(start, ops, i, false, lo, hi);
    ReportsStep(start, ops, i, true, lo, hi);
    RejectionsStep(start, ops, passed, i, lo, hi);
    GrownCounts(start, ops[i], passed[i], log, lo, hi, |Reports(start, ops, i, false, lo, hi)|,
                |Rejections(start, ops, passed, i, lo, hi)|, |Reports(start, ops, i, true, lo, hi)|);
  }

  // ------------------------------------------------------------- the breaker's runs

  lemma {:induction false} StepKeepsStart(s: State, op: Op)
    ensures Do(s, op).start == s.start
  {
  }

  lemma {:induction false} StartKept(s: State, ops: seq<Op>, n: nat)
    requires n <= |ops|
    ensures After(s, ops, n).start == s.start
  {
    if n > 0 {
      StartKept(s, ops, n - 1);
      StepKeepsStart(After(s, ops, n - 1), ops[n - 1]);
    }
  }

  /** Whether the breaker let operation i pass, if it asked. */
  ghost function PassedAt(s: State, ops: seq<Op>, i: nat): (b: bool)
    requires i < |ops|
  {
    ops[i].Ask? && AcceptAt(After(s, ops, i), ops[i].now, ops[i].draw).ok
  }

  ghost function Passed(s: State, ops: seq<Op>): (bs: seq<bool>)
    ensures |bs| == |ops|
  {
    seq(|ops|, i requires 0 <= i < |ops| => PassedAt(s, ops, i))
  }

  ghost function LogAt(s: State, ops: seq<Op>, n: nat): (log: seq<Event<int>>)
    requires n <= |ops|
  {
    After(s, ops, n).log
  }

  lemma {:induction false} DoGrows(s: State, op: Op)
    ensures Do(s, op).log == Grown(s.start, op, op.Ask? && AcceptAt(s, op.now, op.draw).ok, s.log)
  {
  }

  lemma {:induction false} LogGrows(s: State, ops: seq<Op>, i: nat, j: nat)
    requires i < |ops| && j == i + 1
    ensures LogAt(s, ops, j) == Grown(s.start, ops[i], PassedAt(s, ops, i), LogAt(s, ops, i))
  {
    StartKept(s, ops, i);
    DoGrows(After(s, ops, i), ops[i]);
  }

  /**
   In every run of a new breaker, the outcomes logged in some intervals are the
   failures reported in them, the requests rejected in them, and the successes
   reported in them: each once, and nothing else.
   */
  lemma {:induction false} LogCounts(s: State, ops: seq<Op>, n: nat, lo: int, hi: int)
    requires n <= |ops| && s.log == []
    ensures Counts(multiset(Between(LogAt(s, ops, n), lo, hi)), |Reports(s.start, ops, n, false, lo, hi)|,
                   |Rejections(s.start, ops, Passed(s, ops), n, lo, hi)|, |Reports(s.start, ops, n, true, lo, hi)|)
  {
    var logs := seq(|ops| + 1, i requires 0 <= i <= |ops| => LogAt(s, ops, i));
    forall i, j | 0 <= i < |ops| && j == i + 1 ensures logs[j] == Grown(s.start, ops[i], Passed(s, ops)[i], logs[i]) {
      LogGrows(s, ops, i, j);
    }
    ChainCounts(s.start, ops, Passed(s, ops), logs, n, lo, hi);
  }

  // ------------------------------------------------------------------- the switch

  /** The last use of the switch forced the breaker open. */
  ghost predicate ForcedOpen(ops: seq<Op>, n: nat)
    requires n <= |ops|
  {
    exists i :: 0 <= i < n && ops[i].ForceOpen? && forall j :: i < j < n ==> !ops[j].ForceClose?
  }

  lemma {:induction false} SwitchStep(ops: seq<Op>, n: nat)
    requires n < |ops|
    ensures ForcedOpen(ops, n + 1) <==> ops[n].ForceOpen? || (ForcedOpen(ops, n) && !ops[n].ForceClose?)
  {
    if ForcedOpen(ops, n) && !ops[n].ForceClose? {
      var i :| 0 <= i < n && ops[i].ForceOpen? && forall j :: i < j < n ==> !ops[j].ForceClose?;
      assert forall j :: i < j < n + 1 ==> !ops[j].ForceClose?;
    }
    if ForcedOpen(ops, n + 1) && !ops[n].ForceOpen? {
      var i :| 0 <= i < n + 1 && ops[i].ForceOpen? && forall j :: i < j < n + 1 ==> !ops[j].ForceClose?;
      assert i < n;
    }
  }

  lemma {:induction false} SwitchedBy(s: State, op: Op)
    ensures Do(s, op).manualOpen <==> op.ForceOpen? || (s.manualOpen && !op.ForceClose?)
  {
  }

  /** In every run the breaker is forced open exactly while the last use of the switch forced it open, and then rejects everything. */
  lemma {:induction false} SwitchDecides(s: State, ops: seq<Op>, n: nat, now: int, draw: real)
    requires n <= |ops| && !s.manualOpen
    ensures After(s, ops, n).manualOpen <==> ForcedOpen(ops, n)
    ensures ForcedOpen(ops, n) ==> !AcceptAt(After(s, ops, n), now, draw).ok
  {
    if n > 0 {
      SwitchDecides(s, ops, n - 1, now, draw);
      SwitchStep(ops, n - 1);
      SwitchedBy(After(s, ops, n - 1), ops[n - 1]);
    }
  }
}
