/**
 The Google SRE breaker of infra/breaker: client-side throttling computed from
 the outcomes of the last 40 intervals of 250 ms.

 Floats are reals, a random draw is a parameter, and every operation reads the
 clock once.
 */
module Breakers {
  import opened RollingWindows

  const SUCCESS: int := 0
  const FAIL: int := 1
  const DROP: int := 2

  const BUCKETS: int := 40
  const BUCKET_DURATION: int := 250_000_000
  const FORCE_PASS_DURATION: int := 1_000_000_000
  const K: real := 1.5
  const MIN_K: real := 1.1
  const PROTECTION: int := 5

  // ----------------------------------------------------------------- buckets

  datatype Bucket = Bucket(sum: int, success: int, failure: int, drop: int)

  function AddTo(b: Bucket, v: int): (b': Bucket)
  {
    if v == FAIL then b.(sum := b.sum + 1, failure := b.failure + 1)
    else if v == DROP then b.(sum := b.sum + 1, drop := b.drop + 1)
    else b.(sum := b.sum + 1, success := b.success + 1)
  }

  function Counting(): (alg: Algebra<int, Bucket>)
  {
    Algebra(Bucket(0, 0, 0, 0), AddTo)
  }

  /** The bucket after the first n outcomes were added to an empty one. */
  function Tally(vs: seq<int>, n: nat): (b: Bucket)
    requires n <= |vs|
    ensures b.sum == n && b.sum == b.success + b.failure + b.drop
    ensures b.success >= 0 && b.failure >= 0 && b.drop >= 0
  {
    if n == 0 then Bucket(0, 0, 0, 0) else AddTo(Tally(vs, n - 1), vs[n - 1])
  }

  function TallyOf(vs: seq<int>): (b: Bucket)
  {
    Tally(vs, |vs|)
  }

  function Plus(a: Bucket, b: Bucket): (c: Bucket)
  {
    Bucket(a.sum + b.sum, a.success + b.success, a.failure + b.failure, a.drop + b.drop)
  }

  lemma {:induction false} TallyPrefix(vs: seq<int>, ws: seq<int>, n: nat)
    requires n <= |vs|
    ensures Tally(vs + ws, n) == Tally(vs, n)
  {
    if n > 0 {
      TallyPrefix(vs, ws, n - 1);
    }
  }

  lemma {:induction false} PlusAdd(a: Bucket, b: Bucket, v: int)
    ensures Plus(a, AddTo(b, v)) == AddTo(Plus(a, b), v)
  {
  }

  lemma {:induction false} TallyConcat(all: seq<int>, vs: seq<int>, ws: seq<int>, n: nat)
    requires all == vs + ws && n <= |ws|
    ensures Tally(all, |vs| + n) == Plus(TallyOf(vs), Tally(ws, n))
  {
    if n == 0 {
      TallyPrefix(vs, ws, |vs|);
    } else {
      TallyConcat(all, vs, ws, n - 1);
      var m := |vs| + n - 1;
      assert all[m] == ws[n - 1];
      assert Tally(all, m + 1) == AddTo(Tally(all, m), all[m]);
      assert Tally(ws, n) == AddTo(Tally(ws, n - 1), ws[n - 1]);
      PlusAdd(TallyOf(vs), Tally(ws, n - 1), ws[n - 1]);
    }
  }

  lemma {:induction false} FoldIsTally(vs: seq<int>)
    ensures Fold(Counting(), vs) == TallyOf(vs)
  {
    if vs != [] {
      var n := |vs| - 1;
      FoldIsTally(vs[..n]);
      TallyPrefix(vs[..n], [vs[n]], n);
      assert vs[..n] + [vs[n]] == vs;
    }
  }

  /** The outcomes that are neither failures nor drops. */
  ghost function Rest(bag: multiset<int>): (r: multiset<int>)
  {
    bag[FAIL := 0][DROP := 0]
  }

  lemma {:induction false} RestOneMore(bag: multiset<int>, v: int)
    ensures |Rest(bag + multiset{v})| == |Rest(bag)| + if v == FAIL || v == DROP then 0 else 1
  {
    var more := bag + multiset{v};
    if v == FAIL || v == DROP {
      assert Rest(more) == Rest(bag);
    } else {
      assert Rest(more) == Rest(bag) + multiset{v};
    }
  }

  /** The counts of a bucket are those of the bag of its outcomes: its size, its failures, its drops and the rest. */
  lemma {:induction false} TallyIsBag(vs: seq<int>, n: nat)
    requires n <= |vs|
    ensures var b := Tally(vs, n);
      var bag := multiset(vs[..n]);
      b.sum == |bag| && b.failure == bag[FAIL] && b.drop == bag[DROP] && b.success == |Rest(bag)|
  {
    if n > 0 {
      TallyIsBag(vs, n - 1);
      assert vs[..n] == vs[..n - 1] + [vs[n - 1]];
      RestOneMore(multiset(vs[..n - 1]), vs[n - 1]);
    }
  }

  lemma {:induction false} WholeBag(vs: seq<int>)
    ensures var b := TallyOf(vs);
      var bag := multiset(vs);
      b.sum == |bag| && b.failure == bag[FAIL] && b.drop == bag[DROP] && b.success == |Rest(bag)|
  {
    TallyIsBag(vs, |vs|);
    assert vs[..|vs|] == vs;
  }

  /**
   Every bucket of the window holds the size of the bag of its interval's
   outcomes, the number of failures and of drops in it, and the rest as
   successes, so that Sum = Success + Failure + Drop.
   */
  lemma {:induction false} BucketCounts(log: seq<Event<int>>, i: int)
    ensures var b := BucketOf(Counting(), log, i);
      var bag := multiset(Between(log, i, i + 1));
      && b.sum == |bag| && b.failure == bag[FAIL] && b.drop == bag[DROP] && b.success == |Rest(bag)|
      && b.sum == b.success + b.failure + b.drop
  {
    FoldIsTally(Between(log, i, i + 1));
    WholeBag(Between(log, i, i + 1));
  }

  // ----------------------------------------------------------------- history

  datatype Tallies = Tallies(accepts: int, total: int, failing: int, working: int)

  /** Intervals in [first, first + n) with at least one failure, and with at least one success. */
  ghost function Failing(log: seq<Event<int>>, first: int, n: nat): (c: int)
    ensures 0 <= c <= n
  {
    if n == 0 then 0
    else Failing(log, first, n - 1) + if TallyOf(Between(log, first + n - 1, first + n)).failure > 0 then 1 else 0
  }

  ghost function Working(log: seq<Event<int>>, first: int, n: nat): (c: int)
    ensures 0 <= c <= n
  {
    if n == 0 then 0
    else Working(log, first, n - 1) + if TallyOf(Between(log, first + n - 1, first + n)).success > 0 then 1 else 0
  }

  /** Whether an outcome of the interval is a failure, and whether one is neither a failure nor a drop. */
  ghost predicate HasFailure(log: seq<Event<int>>, i: int)
  {
    FAIL in Between(log, i, i + 1)
  }

  ghost predicate HasSuccess(log: seq<Event<int>>, i: int)
  {
    AnyOther(Between(log, i, i + 1))
  }

  ghost predicate AnyOther(vs: seq<int>)
  {
    exists k :: 0 <= k < |vs| && vs[k] != FAIL && vs[k] != DROP
  }

  /** The intervals among n from first on with a failure, and with a success. */
  ghost function FailingIntervals(log: seq<Event<int>>, first: int, n: nat): (xs: set<int>)
  {
    set i | first <= i < first + n && HasFailure(log, i)
  }

  ghost function WorkingIntervals(log: seq<Event<int>>, first: int, n: nat): (xs: set<int>)
  {
    set i | first <= i < first + n && HasSuccess(log, i)
  }

  lemma {:induction false} FailureSeen(log: seq<Event<int>>, i: int)
    ensures TallyOf(Between(log, i, i + 1)).failure > 0 <==> HasFailure(log, i)
  {
    WholeBag(Between(log, i, i + 1));
  }

  lemma {:induction false} SomeRest(vs: seq<int>)
    ensures |Rest(multiset(vs))| > 0 <==> AnyOther(vs)
  {
    var rest := Rest(multiset(vs));
    if forall v :: rest[v] == 0 {
      assert rest == multiset{};
    } else {
      var v :| rest[v] > 0;
      assert v in multiset(vs);
      assert v in vs;
    }
    if k :| 0 <= k < |vs| && vs[k] != FAIL && vs[k] != DROP {
      assert vs[k] in multiset(vs);
      assert vs[k] in rest;
    }
  }

  lemma {:induction false} SuccessSeen(log: seq<Event<int>>, i: int)
    ensures TallyOf(Between(log, i, i + 1)).success > 0 <==> HasSuccess(log, i)
  {
    WholeBag(Between(log, i, i + 1));
    SomeRest(Between(log, i, i + 1));
  }

  lemma {:induction false} FailingCounts(log: seq<Event<int>>, first: int, n: nat)
    ensures Failing(log, first, n) == |FailingIntervals(log, first, n)|
  {
    if n > 0 {
      var last := first + n - 1;
      FailingCounts(log, first, n - 1);
      FailureSeen(log, last);
      OneMoreInterval(FailingIntervals(log, first, n - 1), FailingIntervals(log, first, n), last, HasFailure(log, last));
    }
  }

  lemma {:induction false} WorkingCounts(log: seq<Event<int>>, first: int, n: nat)
    ensures Working(log, first, n) == |WorkingIntervals(log, first, n)|
  {
    if n > 0 {
      var last := first + n - 1;
      WorkingCounts(log, first, n - 1);
      SuccessSeen(log, last);
      OneMoreInterval(WorkingIntervals(log, first, n - 1), WorkingIntervals(log, first, n), last, HasSuccess(log, last));
    }
  }

  lemma {:induction false} OneMoreInterval(before: set<int>, after: set<int>, i: int, joins: bool)
    requires i !in before && after == if joins then before + {i} else before
    ensures |after| == |before| + if joins then 1 else 0
  {
  }

  /** The outcomes of the last 40 intervals at interval `slot`. */
  ghost function Window(log: seq<Event<int>>, slot: int): (vs: seq<int>)
  {
    Between(log, slot - BUCKETS + 1, slot + 1)
  }

  /** The counts of the last 40 intervals: the accepts, all outcomes, the intervals with a failure and those with a success. */
  ghost function HistoryOf(log: seq<Event<int>>, slot: int): (h: Tallies)
  {
    var t, first := TallyOf(Window(log, slot)), slot - BUCKETS + 1;
    Tallies(t.success, t.sum, |FailingIntervals(log, first, BUCKETS)|, |WorkingIntervals(log, first, BUCKETS)|)
  }

  /** The accepts and the total of a history are those of the bag of the window's outcomes. */
  lemma {:induction false} HistoryCounts(log: seq<Event<int>>, slot: int)
    ensures var h := HistoryOf(log, slot);
      var bag := multiset(Window(log, slot));
      h.total == |bag| && h.accepts == |Rest(bag)| && h.total - h.accepts == bag[FAIL] + bag[DROP]
  {
    WholeBag(Window(log, slot));
  }

  /** Intervals after the last event count neither as failing nor as working. */
  lemma {:induction false} TrailingIntervals(log: seq<Event<int>>, first: int, n: nat, m: nat)
    requires InOrder(log) && n <= m && Between(log, first, first + n) == Between(log, first, first + m)
    ensures Failing(log, first, m) == Failing(log, first, n) && Working(log, first, m) == Working(log, first, n)
  {
    if n < m {
      BetweenSplit(log, |log|, first, first + n, first + m);
      BetweenSplit(log, |log|, first + n, first + m - 1, first + m);
      BetweenSplit(log, |log|, first, first + n, first + m - 1);
      assert Between(log, first + n, first + m) == [];
      TrailingIntervals(log, first, n, m - 1);
    }
  }

  /** The sums a reduction has reached after n buckets. */
  ghost function Partial(log: seq<Event<int>>, first: int, n: nat): (h: Tallies)
  {
    var t := TallyOf(Between(log, first, first + n));
    Tallies(t.success, t.sum, Failing(log, first, n), Working(log, first, n))
  }

  /** The sums over the visited buckets are the history, when nothing was logged after them. */
  lemma {:induction false} WholeHistory(log: seq<Event<int>>, slot: int, n: nat, m: nat)
    requires InOrder(log) && n <= m == BUCKETS
    requires Between(log, slot - m + 1, slot - m + 1 + n) == Window(log, slot)
    ensures Partial(log, slot - m + 1, n) == HistoryOf(log, slot)
  {
    var first := slot - m + 1;
    TrailingIntervals(log, first, n, m);
    FailingCounts(log, first, m);
    WorkingCounts(log, first, m);
  }

  lemma {:induction false} PartialNext(log: seq<Event<int>>, first: int, n: nat)
    requires InOrder(log)
    ensures var b := BucketOf(Counting(), log, first + n);
      var h := Partial(log, first, n);
      Partial(log, first, n + 1) ==
      Tallies(h.accepts + b.success, h.total + b.sum,
              h.failing + (if b.failure > 0 then 1 else 0), h.working + (if b.success > 0 then 1 else 0))
  {
    FoldIsTally(Between(log, first + n, first + n + 1));
    BetweenSplit(log, |log|, first, first + n, first + n + 1);
    var ws := Between(log, first + n, first + n + 1);
    TallyConcat(Between(log, first, first + n + 1), Between(log, first, first + n), ws, |ws|);
  }

  // ---------------------------------------------------------------- decisions

  function AtLeast(x: real, lower: real): (r: real)
  {
    if x < lower then lower else x
  }

  function Weight(failing: int): (w: real)
  {
    AtLeast(K - (K - MIN_K) * failing as real / BUCKETS as real, MIN_K)
  }

  /** The SRE drop ratio, before it is scaled by the share of buckets without a success. */
  function DropRatio(h: Tallies): (r: real)
    requires h.total >= 0
  {
    ((h.total - PROTECTION) as real - Weight(h.failing) * h.accepts as real) / (h.total + 1) as real
  }

  /** The ratio scaled by the share of buckets without a success. */
  function Scaled(ratio: real, working: int): (r: real)
  {
    ratio * ((BUCKETS - working) as real / BUCKETS as real)
  }

  datatype Decision = Decision(ok: bool, lastPass: int)

  /** accept, for a closed breaker: history, last recorded pass, clock and random draw. */
  function Decide(h: Tallies, lastPass: int, now: int, draw: real): (d: Decision)
    requires h.total >= 0
  {
    var ratio := DropRatio(h);
    if ratio <= 0.0 then Decision(true, lastPass)
    else if lastPass > 0 && now - lastPass > FORCE_PASS_DURATION then Decision(true, now)
    else if draw < Scaled(ratio, h.working) then Decision(false, lastPass)
    else Decision(true, now)
  }

  lemma {:induction false} QuotientSign(x: real, y: real)
    requires y > 0.0
    ensures x / y > 0.0 <==> x > 0.0
  {
    assert x / y * y == x;
  }

  lemma {:induction false} WeightedAccepts(w: real, t: real, a: real)
    requires w >= MIN_K && a >= 0.0 && t - 5.0 - w * a > 0.0
    ensures 10.0 * (t - a) > 50.0 + a
  {
    assert (w - MIN_K) * a >= 0.0;
    assert w * a == MIN_K * a + (w - MIN_K) * a;
  }

  /** With f of the 40 buckets failing the weight of an accept is 1.5 - f / 100. */
  lemma {:induction false} WeightExactly(failing: int)
    requires 0 <= failing <= BUCKETS
    ensures Weight(failing) == (150 - failing) as real / 100.0
  {
    var f := failing as real;
    assert (150 - failing) as real == 150.0 - f;
    assert K - (K - MIN_K) * f / 40.0 == 1.5 - 0.01 * f;
  }

  /** The overload zone in whole numbers: 100 (total - 5) > (150 - failing) accepts. */
  lemma {:induction false} OverloadExactly(h: Tallies)
    requires h.accepts >= 0 && h.total >= 0 && 0 <= h.failing <= BUCKETS
    ensures DropRatio(h) > 0.0 <==> 100 * (h.total - PROTECTION) > (150 - h.failing) * h.accepts
  {
    var a, t := h.accepts as real, (h.total - PROTECTION) as real;
    var w := (150 - h.failing) as real;
    WeightExactly(h.failing);
    QuotientSign(t - w / 100.0 * a, (h.total + 1) as real);
    assert w / 100.0 * a == w * a / 100.0;
    assert ((150 - h.failing) * h.accepts) as real == w * a;
    assert (100 * (h.total - PROTECTION)) as real == 100.0 * t;
  }

  /** A positive drop ratio needs more than 5 + accepts / 10 failures and drops in the window. */
  lemma {:induction false} OverloadNeedsFailures(h: Tallies)
    requires h.accepts >= 0 && h.total >= 0 && DropRatio(h) > 0.0
    ensures 10 * (h.total - h.accepts) > 50 + h.accepts
  {
    var a, t := h.accepts as real, h.total as real;
    var w := Weight(h.failing);
    assert (h.total - PROTECTION) as real == t - 5.0;
    QuotientSign(t - 5.0 - w * a, (h.total + 1) as real);
    WeightedAccepts(w, t, a);
    assert (10 * (h.total - h.accepts)) as real == 10.0 * (t - a);
    assert (50 + h.accepts) as real == 50.0 + a;
  }

  // -------------------------------------------------------------- whole runs

  datatype State = State(start: int, log: seq<Event<int>>, lastPass: int, manualOpen: bool)

  datatype Op =
    | Ask(now: int, draw: real)    // allow or doReq: a rejection is recorded as a drop
    | Probe(now: int, draw: real)  // IsOpen: the same decision, nothing recorded
    | Report(now: int, ok: bool)   // a promise or a finished request
    | ForceOpen
    | ForceClose

  function SlotOf(s: State, now: int): (i: int)
  {
    Slot(s.start, BUCKET_DURATION, now)
  }

  ghost function HistoryAt(s: State, now: int): (h: Tallies)
  {
    HistoryOf(s.log, SlotOf(s, now))
  }

  /** accept */
  ghost function AcceptAt(s: State, now: int, draw: real): (d: Decision)
  {
    if s.manualOpen then Decision(false, s.lastPass)
    else Decide(HistoryAt(s, now), s.lastPass, now, draw)
  }

  ghost function Logged(s: State, now: int, v: int): (s': State)
  {
    s.(log := s.log + [Event(now, SlotOf(s, now), v)])
  }

  ghost function Do(s: State, op: Op): (s': State)
  {
    match op
    case Ask(now, draw) =>
      var d := AcceptAt(s, now, draw);
      var s1 := s.(lastPass := d.lastPass);
      if d.ok then s1 else Logged(s1, now, DROP)
    case Probe(now, draw) => s.(lastPass := AcceptAt(s, now, draw).lastPass)
    case Report(now, ok) => Logged(s, now, if ok then SUCCESS else FAIL)
    case ForceOpen => s.(manualOpen := true)
    case ForceClose => s.(manualOpen := false)
  }

  /** The state after the first n operations. */
  ghost function After(s: State, ops: seq<Op>, n: nat): (s': State)
    requires n <= |ops|
  {
    if n == 0 then s else Do(After(s, ops, n - 1), ops[n - 1])
  }

  /** A decision taken in the overload zone that let the request pass. */
  ghost predicate OverloadPass(s: State, op: Op)
  {
    && (op.Ask? || op.Probe?) && !s.manualOpen
    && DropRatio(HistoryAt(s, op.now)) > 0.0 && AcceptAt(s, op.now, op.draw).ok
  }

  datatype LastSeen = Never | At(time: int)

  /** When, among the first n operations, the latest overload-zone pass happened. */
  ghost function LatestPass(s: State, ops: seq<Op>, n: nat): (r: LastSeen)
    requires n <= |ops|
  {
    if n == 0 then Never
    else if OverloadPass(After(s, ops, n - 1), ops[n - 1]) then At(ops[n - 1].now)
    else LatestPass(s, ops, n - 1)
  }

  lemma {:induction false} PassRecorded(s: State, op: Op)
    ensures Do(s, op).lastPass == if OverloadPass(s, op) then op.now else s.lastPass
  {
  }

  /** The lastPass field always is the time of the latest overload-zone pass, zero while there is none. */
  lemma {:induction false} LastPassIsLatest(s: State, ops: seq<Op>, n: nat)
    requires n <= |ops| && s.lastPass == 0
    ensures After(s, ops, n).lastPass == match LatestPass(s, ops, n) case Never => 0 case At(t) => t
  {
    if n > 0 {
      LastPassIsLatest(s, ops, n - 1);
      PassRecorded(After(s, ops, n - 1), ops[n - 1]);
    }
  }

  /**
   In every run, a request rejected while the breaker is not forced open saw
   more than 5 + accepts / 10 failures and drops in the last 40 intervals, and
   no overload-zone pass was ever recorded or the latest is at most one second old.
   */
  lemma {:induction false} RejectionJustified(s: State, ops: seq<Op>, n: nat)
    requires n < |ops| && s.lastPass == 0 && ops[n].Ask?
    requires forall i :: 0 <= i < |ops| && (ops[i].Ask? || ops[i].Probe?) ==> ops[i].now > 0
    requires !After(s, ops, n).manualOpen && !AcceptAt(After(s, ops, n), ops[n].now, ops[n].draw).ok
    ensures var bag := multiset(Window(After(s, ops, n).log, SlotOf(After(s, ops, n), ops[n].now)));
      10 * (bag[FAIL] + bag[DROP]) > 50 + |Rest(bag)|
    ensures match LatestPass(s, ops, n)
      case Never => true
      case At(t) => ops[n].now - t <= FORCE_PASS_DURATION
  {
    var now := ops[n].now;
    var reached := After(s, ops, n);
    OverloadNeedsFailures(HistoryAt(reached, now));
    WholeBag(Window(reached.log, SlotOf(reached, now)));
    LastPassIsLatest(s, ops, n);
    LatestPassPositive(s, ops, n);
  }

  lemma {:induction false} LatestPassPositive(s: State, ops: seq<Op>, n: nat)
    requires n <= |ops|
    requires forall i :: 0 <= i < |ops| && (ops[i].Ask? || ops[i].Probe?) ==> ops[i].now > 0
    ensures LatestPass(s, ops, n).At? ==> LatestPass(s, ops, n).time > 0
  {
    if n > 0 {
      LatestPassPositive(s, ops, n - 1);
    }
  }

  /**
   Under overload a request more than a second after the latest overload-zone
   pass is always let through, whatever the random draw, and becomes the latest.
   */
  lemma {:induction false} OnePassPerSecond(s: State, ops: seq<Op>, n: nat)
    requires n < |ops| && s.lastPass == 0 && ops[n].Ask? && !After(s, ops, n).manualOpen
    requires forall i :: 0 <= i < |ops| && (ops[i].Ask? || ops[i].Probe?) ==> ops[i].now > 0
    requires DropRatio(HistoryAt(After(s, ops, n), ops[n].now)) > 0.0
    requires LatestPass(s, ops, n).At? && ops[n].now - LatestPass(s, ops, n).time > FORCE_PASS_DURATION
    ensures AcceptAt(After(s, ops, n), ops[n].now, ops[n].draw).ok && LatestPass(s, ops, n + 1) == At(ops[n].now)
  {
    LastPassIsLatest(s, ops, n);
    LatestPassPositive(s, ops, n);
  }

  /** A backend with at most five failures and drops in the window is never throttled. */
  lemma {:induction false} HealthyNeverRejected(s: State, now: int, draw: real)
    requires !s.manualOpen
    requires var bag := multiset(Window(s.log, SlotOf(s, now))); bag[FAIL] + bag[DROP] <= 5
    ensures AcceptAt(s, now, draw).ok && AcceptAt(s, now, draw).lastPass == s.lastPass
  {
    var h := HistoryAt(s, now);
    WholeBag(Window(s.log, SlotOf(s, now)));
    if DropRatio(h) > 0.0 {
      OverloadNeedsFailures(h);
    }
  }

  /** The window is the last ten seconds: an outcome counts for 9.75 seconds at least and never after ten. */
  lemma {:induction false} WindowSpan(s: State, t: int, now: int)
    requires t <= now
    ensures now - t <= 9_750_000_000 ==> SlotOf(s, now) - BUCKETS < SlotOf(s, t) <= SlotOf(s, now)
    ensures now - t >= 10_000_000_000 ==> SlotOf(s, t) <= SlotOf(s, now) - BUCKETS
  {
  }

  // ---------------------------------------------------------- exactly when rejected

  lemma {:induction false} FractionBelow(draw: real, n: real, m: real, v: real)
    requires m > 0.0
    ensures draw < n / m * (v / 40.0) <==> draw * (40.0 * m) < n * v
  {
    var x := n / m * (v / 40.0);
    assert x * (40.0 * m) == (n / m * m) * v;
    assert (x - draw) * (40.0 * m) == n * v - draw * (40.0 * m);
    ProductSign(x - draw, 40.0 * m);
  }

  lemma {:induction false} ProductSign(x: real, m: real)
    requires m > 0.0
    ensures x * m > 0.0 <==> x > 0.0
  {
  }

  lemma {:induction false} Hundredfold(draw: real, k: real, n: real, v: real)
    ensures draw * (40.0 * k) < n * v <==> draw * (4000.0 * k) < 100.0 * n * v
  {
    assert draw * (4000.0 * k) == 100.0 * (draw * (40.0 * k));
    assert 100.0 * n * v == 100.0 * (n * v);
  }

  /** A hundred times the numerator of the drop ratio. */
  function Excess(total: int, failing: int, accepts: int): (e: int)
  {
    100 * (total - PROTECTION) - (150 - failing) * accepts
  }

  lemma {:induction false} NumeratorIsExcess(h: Tallies)
    requires 0 <= h.failing <= BUCKETS
    ensures 100.0 * ((h.total - PROTECTION) as real - Weight(h.failing) * h.accepts as real) == Excess(h.total, h.failing, h.accepts) as real
  {
    var a, w := h.accepts as real, (150 - h.failing) as real;
    WeightExactly(h.failing);
    assert w / 100.0 * a == w * a / 100.0;
    assert ((150 - h.failing) * h.accepts) as real == w * a;
    assert (100 * (h.total - PROTECTION)) as real == 100.0 * (h.total - PROTECTION) as real;
  }

  /** The scaled ratio against a draw, in whole numbers but for the draw. */
  lemma {:induction false} DrawnExactly(h: Tallies, draw: real)
    requires h.total >= 0 && 0 <= h.failing <= BUCKETS
    ensures draw < Scaled(DropRatio(h), h.working)
      <==> draw * (4000 * (h.total + 1)) as real < (Excess(h.total, h.failing, h.accepts) * (BUCKETS - h.working)) as real
  {
    var n := (h.total - PROTECTION) as real - Weight(h.failing) * h.accepts as real;
    var m, v := (h.total + 1) as real, (BUCKETS - h.working) as real;
    NumeratorIsExcess(h);
    FractionBelow(draw, n, m, v);
    Hundredfold(draw, m, n, v);
    assert (4000 * (h.total + 1)) as real == 4000.0 * m;
    assert (Excess(h.total, h.failing, h.accepts) * (BUCKETS - h.working)) as real == Excess(h.total, h.failing, h.accepts) as real * v;
  }

  /**
   The rule in whole numbers, but for the draw: with `total` outcomes, `others` of
   them neither failures nor drops, `failing` intervals with a failure and
   `working` with a success, the window is overloaded, no forced pass is due, and
   the draw is below
   (100 (total - 5) - (150 - failing) others) (40 - working) / (4000 (total + 1)).
   */
  predicate Throttled(total: int, others: int, failing: int, working: int, forced: bool, draw: real)
  {
    var excess := 100 * (total - 5) - (150 - failing) * others;
    excess > 0 && !forced && draw * (4000 * (total + 1)) as real < (excess * (40 - working)) as real
  }

  /** The rule on the bag and the intervals of the log's last 40 intervals. */
  ghost predicate ShouldReject(log: seq<Event<int>>, slot: int, forced: bool, draw: real)
  {
    var bag, first := multiset(Window(log, slot)), slot - BUCKETS + 1;
    Throttled(|bag|, |bag| - bag[FAIL] - bag[DROP],
              |FailingIntervals(log, first, BUCKETS)|, |WorkingIntervals(log, first, BUCKETS)|, forced, draw)
  }

  lemma {:induction false} DecidedIff(h: Tallies, lastPass: int, now: int, draw: real)
    requires h.total >= 0 && h.accepts >= 0 && 0 <= h.failing <= BUCKETS
    ensures !Decide(h, lastPass, now, draw).ok
      <==> Throttled(h.total, h.accepts, h.failing, h.working, lastPass > 0 && now - lastPass > 1_000_000_000, draw)
  {
    OverloadExactly(h);
    DrawnExactly(h, draw);
  }

  lemma {:induction false} HistoryFields(log: seq<Event<int>>, slot: int, h: Tallies)
    requires h == HistoryOf(log, slot)
    ensures var bag := multiset(Window(log, slot));
      h.total == |bag| && h.accepts == |bag| - bag[FAIL] - bag[DROP] && h.accepts >= 0 && 0 <= h.failing <= BUCKETS
  {
    HistoryCounts(log, slot);
    FailingBound(log, slot - BUCKETS + 1, BUCKETS);
  }

  lemma {:induction false} FailingBound(log: seq<Event<int>>, first: int, n: nat)
    ensures |FailingIntervals(log, first, n)| <= n
  {
    FailingCounts(log, first, n);
  }

  lemma {:induction false} RejectedIff(s: State, now: int, draw: real)
    ensures !AcceptAt(s, now, draw).ok
      <==> s.manualOpen || ShouldReject(s.log, SlotOf(s, now), s.lastPass > 0 && now - s.lastPass > 1_000_000_000, draw)
  {
    var h := HistoryAt(s, now);
    HistoryFields(s.log, SlotOf(s, now), h);
    DecidedIff(h, s.lastPass, now, draw);
  }

  /**
   In every run: a request is rejected if and only if the breaker is forced open,
   or the window is overloaded, no overload-zone pass was recorded or the latest
   is at most one second old, and the draw is below the bound.
   */
  lemma {:induction false} RunRejectedIff(s: State, ops: seq<Op>, n: nat)
    requires n < |ops| && s.lastPass == 0 && (ops[n].Ask? || ops[n].Probe?)
    requires forall i :: 0 <= i < |ops| && (ops[i].Ask? || ops[i].Probe?) ==> ops[i].now > 0
    ensures var reached, op := After(s, ops, n), ops[n];
      var forced := match LatestPass(s, ops, n) case Never => false case At(t) => op.now - t > 1_000_000_000;
      !AcceptAt(reached, op.now, op.draw).ok
      <==> reached.manualOpen || ShouldReject(reached.log, SlotOf(reached, op.now), forced, op.draw)
  {
    RejectedIff(After(s, ops, n), ops[n].now, ops[n].draw);
    LastPassIsLatest(s, ops, n);
    LatestPassPositive(s, ops, n);
  }

  // --------------------------------------------------------------- the object

  class GoogleBreaker {
    const stat: RollingWindow<int, Bucket>
    var lastPass: int
    var manualOpen: bool

    ghost function View(): (s: State)
      reads this, stat
    {
      State(stat.start, stat.log, lastPass, manualOpen)
    }

    ghost predicate Valid()
      reads this, stat, stat.buckets
    {
      && stat.Valid() && stat.size == BUCKETS && stat.interval == BUCKET_DURATION
      && !stat.ignoreCurrent && stat.alg == Counting()
    }

    constructor (now: int)
      ensures Valid() && fresh(stat) && fresh(stat.buckets) && stat.LoggedBy(now)
      ensures View() == State(now, [], 0, false)
    {
      stat := new RollingWindow(Counting(), BUCKETS, BUCKET_DURATION, false, now);
      lastPass := 0;
      manualOpen := false;
    }

    /** history: the callback of Reduce, accumulating over the visited buckets. */
    method History(now: int) returns (h: Tallies)
      requires Valid() && stat.LoggedBy(now)
      ensures h == HistoryAt(View(), now)
    {
      ghost var first := SlotOf(View(), now) - BUCKETS + 1;
      var visited := stat.Reduce(now);
      h := Accumulate(visited, stat.log, first);
      WholeHistory(stat.log, SlotOf(View(), now), |visited|, BUCKETS);
    }

    static method Accumulate(visited: seq<Bucket>, ghost log: seq<Event<int>>, ghost first: int) returns (h: Tallies)
      requires InOrder(log)
      requires forall i :: 0 <= i < |visited| ==> visited[i] == BucketOf(Counting(), log, first + i)
      ensures h == Partial(log, first, |visited|)
    {
      BetweenEmpty(log, |log|, first);
      h := Tallies(0, 0, 0, 0);
      var i := 0;
      while i < |visited|
        invariant 0 <= i <= |visited|
        invariant h == Partial(log, first, i)
      {
        PartialNext(log, first, i);
        var b := visited[i];
        h := Tallies(h.accepts + b.success, h.total + b.sum,
                     h.failing + (if b.failure > 0 then 1 else 0), h.working + (if b.success > 0 then 1 else 0));
        i := i + 1;
      }
    }

    /** accept; the draw is the random number TrueOnProba compares with. */
    method Accept(now: int, draw: real) returns (ok: bool)
      requires Valid() && stat.LoggedBy(now)
      modifies this`lastPass
      ensures Valid() && manualOpen == old(manualOpen)
      ensures Decision(ok, lastPass) == AcceptAt(old(View()), now, draw)
    {
      if manualOpen {
        return false;
      }
      var history := History(now);
      var dropRatio := DropRatio(history);
      if dropRatio <= 0.0 {
        return true;
      }
      if lastPass > 0 && now - lastPass > FORCE_PASS_DURATION {
        lastPass := now;
        return true;
      }
      if draw < Scaled(dropRatio, history.working) {
        return false;
      }
      lastPass := now;
      return true;
    }

    /** The decision of allow and doReq: a rejection is marked as a drop. */
    method Allow(now: int, draw: real) returns (ok: bool)
      requires Valid() && stat.LoggedBy(now)
      modifies this`lastPass, stat, stat.buckets
      ensures Valid() && stat.LoggedBy(now)
      ensures View() == Do(old(View()), Ask(now, draw)) && ok == AcceptAt(old(View()), now, draw).ok
    {
      ok := Accept(now, draw);
      if !ok {
        stat.Add(DROP, now, now);
        ShiftedSame(old(stat.log), 0);
      }
    }

    method IsOpen(now: int, draw: real) returns (open: bool)
      requires Valid() && stat.LoggedBy(now)
      modifies this`lastPass
      ensures Valid() && View() == Do(old(View()), Probe(now, draw))
      ensures open == !AcceptAt(old(View()), now, draw).ok
    {
      var ok := Accept(now, draw);
      open := !ok;
    }

    /** markSuccess and markFailure */
    method Mark(now: int, ok: bool)
      requires Valid() && stat.LoggedBy(now)
      modifies stat, stat.buckets
      ensures Valid() && stat.LoggedBy(now) && View() == Do(old(View()), Report(now, ok))
    {
      stat.Add(if ok then SUCCESS else FAIL, now, now);
      ShiftedSame(old(stat.log), 0);
    }

    method SetManual(open: bool)
      requires Valid()
      modifies this`manualOpen
      ensures Valid() && View() == Do(old(View()), if open then ForceOpen else ForceClose)
    {
      manualOpen := open;
    }
  }
}
