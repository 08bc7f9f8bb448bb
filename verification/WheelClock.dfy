/**
 What the timing wheel of infra/collection/timingwheel.go does to each timer,
 one entry per key and without the slot lists: a timer is a slot, a number of
 full circles and a forward shift taken when the hand reaches the slot.

 The remaining number of ticks of a timer follows from its slot, circles, shift
 and the hand; the theorems say how every operation changes it and, over any
 run, at which tick a timer fires.
 */
module WheelClock {
  import opened Arithmetic

  type Key(==,!new)
  type Value(==,!new)

  datatype Timer = Timer(value: Value, pos: int, circle: int, diff: int)

  datatype Clock = Clock(numSlots: int, hand: int, timers: map<Key, Timer>)

  ghost predicate TimerOk(n: int, t: Timer)
  {
    0 <= t.pos < n && 0 <= t.circle && 0 <= t.diff < n
  }

  ghost predicate ClockOk(c: Clock)
  {
    0 <= c.hand < c.numSlots && forall k :: k in c.timers ==> TimerOk(c.numSlots, c.timers[k])
  }

  // -------------------------------------------------------------- operations

  /** How many intervals a delay is worth; setTask raises it to at least one interval. */
  function Steps(interval: int, delay: int): (s: int)
    requires interval > 0
  {
    if delay < interval then 1 else delay / interval
  }

  /** From one interval on, the whole intervals that fit the delay; below, one. */
  lemma {:induction false} StepsExact(interval: int, delay: int)
    requires interval > 0
    ensures var s := Steps(interval, delay);
      s >= 1 && (delay < interval ==> s == 1) && (delay >= interval ==> interval * s <= delay < interval * (s + 1))
  {
    if delay >= interval {
      assert delay == interval * (delay / interval) + delay % interval;
    }
  }

  /** getPositionAndCircle */
  function Target(c: Clock, s: int): (r: (int, int))
    requires 0 <= c.hand < c.numSlots && s >= 1
  {
    ((c.hand + s) % c.numSlots, (s - 1) / c.numSlots)
  }

  function Put(c: Clock, k: Key, t: Timer): (c': Clock)
  {
    c.(timers := c.timers[k := t])
  }

  /** A new timer for a key that has none. */
  function Insert(c: Clock, k: Key, v: Value, s: int): (c': Clock)
    requires 0 <= c.hand < c.numSlots && s >= 1
  {
    var (pos, circle) := Target(c, s);
    Put(c, k, Timer(v, pos, circle, 0))
  }

  /** moveTask towards a target slot and circle count. */
  function RetimeTo(n: int, t: Timer, pos: int, circle: int): (t': Timer)
  {
    if pos >= t.pos then t.(circle := circle, diff := pos - t.pos)
    else if circle > 0 then t.(circle := circle - 1, diff := n + pos - t.pos)
    else Timer(t.value, pos, 0, 0)
  }

  /** moveTask for a delay of s >= 1 intervals. */
  function Retime(c: Clock, t: Timer, s: int): (t': Timer)
    requires 0 <= c.hand < c.numSlots && s >= 1
  {
    var (pos, circle) := Target(c, s);
    RetimeTo(c.numSlots, t, pos, circle)
  }

  function Move(c: Clock, k: Key, s: int): (c': Clock)
    requires 0 <= c.hand < c.numSlots && s >= 1
  {
    if k in c.timers then Put(c, k, Retime(c, c.timers[k], s)) else c
  }

  /** setTask: a key that already has a timer gets the new value and is moved. */
  function Set(c: Clock, k: Key, v: Value, s: int): (c': Clock)
    requires 0 <= c.hand < c.numSlots && s >= 1
  {
    if k in c.timers then Move(Put(c, k, c.timers[k].(value := v)), k, s)
    else Insert(c, k, v, s)
  }

  function Remove(c: Clock, k: Key): (c': Clock)
  {
    c.(timers := c.timers - {k})
  }

  datatype Visit = Fire | Keep(timer: Timer)

  /** What one tick, ending with the given hand, does to a timer. */
  function VisitTimer(n: int, hand: int, t: Timer): (r: Visit)
    requires n > 0
  {
    if t.pos != hand then Keep(t)
    else if t.circle > 0 then Keep(t.(circle := t.circle - 1))
    else if t.diff > 0 then Keep(t.(pos := (hand + t.diff) % n, diff := 0))
    else Fire
  }

  function NextHand(c: Clock): (h: int)
    requires c.numSlots > 0
  {
    (c.hand + 1) % c.numSlots
  }

  predicate Fires(c: Clock, k: Key)
    requires c.numSlots > 0
  {
    k in c.timers && VisitTimer(c.numSlots, NextHand(c), c.timers[k]).Fire?
  }

  function Tick(c: Clock): (c': Clock)
    requires c.numSlots > 0
  {
    c.(hand := NextHand(c),
       timers := map k | k in c.timers && !Fires(c, k) :: VisitTimer(c.numSlots, NextHand(c), c.timers[k]).timer)
  }

  /** Putting a key back right after removing it is putting it over. */
  lemma {:induction false} PutOverRemoved(c: Clock, k: Key, t: Timer)
    ensures Put(Remove(c, k), k, t) == Put(c, k, t)
  {
    assert (c.timers - {k})[k := t] == c.timers[k := t];
  }

  // ---------------------------------------------------------- remaining time

  /** Ticks until the hand reaches the slot: 1 .. n, a full turn when it is there now. */
  function Dist(n: int, hand: int, pos: int): (d: int)
  {
    if pos > hand then pos - hand else pos - hand + n
  }

  function Remaining(c: Clock, t: Timer): (r: int)
  {
    Dist(c.numSlots, c.hand, t.pos) + c.numSlots * t.circle + t.diff
  }

  lemma {:induction false} TargetSlot(n: int, hand: int, circle: int, d: int)
    requires 0 <= hand < n && 1 <= d <= n
    ensures (hand + (n * circle + d)) % n == if hand + d < n then hand + d else hand + d - n
  {
    if hand + d < n {
      DivModUnique(hand + (n * circle + d), n, circle, hand + d);
    } else {
      assert n * (circle + 1) == n * circle + n;
      DivModUnique(hand + (n * circle + d), n, circle + 1, hand + d - n);
    }
  }

  /** The target slot is Dist away and the circles make up the rest of s. */
  lemma {:induction false} TargetExact(c: Clock, s: int)
    requires 0 <= c.hand < c.numSlots && s >= 1
    ensures var (pos, circle) := Target(c, s);
      && 0 <= pos < c.numSlots && circle >= 0
      && s == Dist(c.numSlots, c.hand, pos) + c.numSlots * circle
      && (circle > 0 <==> s > c.numSlots)
  {
    var n := c.numSlots;
    var circle := (s - 1) / n;
    var d := (s - 1) % n + 1;
    assert s == n * circle + d;
    TargetSlot(n, c.hand, circle, d);
    if circle > 0 {
      LargeMultiple(n, circle);
    }
  }

  /** A timer set for an absent key has exactly s ticks left. */
  lemma {:induction false} InsertExact(c: Clock, k: Key, v: Value, s: int)
    requires ClockOk(c) && s >= 1
    ensures var c' := Insert(c, k, v, s);
      ClockOk(c') && c'.timers.Keys == c.timers.Keys + {k} && c'.timers[k].value == v && Remaining(c', c'.timers[k]) == s
  {
    TargetExact(c, s);
  }

  /** The error of moveTask: it compares slot numbers and ignores where the hand is. */
  function MoveError(c: Clock, t: Timer, s: int): (e: int)
    requires 0 <= c.hand < c.numSlots && s >= 1
  {
    var (pos, circle) := Target(c, s);
    if t.pos <= c.hand < pos then c.numSlots
    else if pos <= c.hand < t.pos && s > c.numSlots then -c.numSlots
    else 0
  }

  /** The three cases of a move towards a slot and circle count that stand for s ticks. */
  lemma {:induction false} RetimedTo(n: int, hand: int, t: Timer, pos: int, circle: int, s: int)
    requires 0 <= hand < n && TimerOk(n, t) && 0 <= pos < n && circle >= 0
    requires s == Dist(n, hand, pos) + n * circle && (circle > 0 <==> s > n)
    ensures var t' := RetimeTo(n, t, pos, circle);
      && TimerOk(n, t') && t'.value == t.value
      && Dist(n, hand, t'.pos) + n * t'.circle + t'.diff
         == s + if t.pos <= hand < pos then n else if pos <= hand < t.pos && s > n then -n else 0
  {
    assert n * (circle - 1) == n * circle - n;
  }

  /** After a move worth s ticks the remaining ticks are s, s + numSlots or s - numSlots. */
  lemma {:induction false} MoveClosedForm(c: Clock, t: Timer, s: int)
    requires 0 <= c.hand < c.numSlots && TimerOk(c.numSlots, t) && s >= 1
    ensures var t' := Retime(c, t, s);
      && TimerOk(c.numSlots, t') && t'.value == t.value
      && Remaining(c, t') == s + MoveError(c, t, s)
  {
    TargetExact(c, s);
    var (pos, circle) := Target(c, s);
    RetimedTo(c.numSlots, c.hand, t, pos, circle, s);
  }

  /**
   A move is exact if and only if the timer's slot and the target slot lie on
   the same side of the hand, or the target lies behind the hand's next pass
   and the delay fits one turn (the entry is then re-inserted).
   */
  lemma {:induction false} MoveExactIff(c: Clock, t: Timer, s: int)
    requires 0 <= c.hand < c.numSlots && TimerOk(c.numSlots, t) && s >= 1
    ensures var pos := (c.hand + s) % c.numSlots;
      Remaining(c, Retime(c, t, s)) == s
      <==> ((t.pos <= c.hand <==> pos <= c.hand) || (t.pos > c.hand && s <= c.numSlots))
  {
    MoveClosedForm(c, t, s);
  }

  /** The same condition in terms of arrival: which of the two slots the hand reaches first. */
  lemma {:induction false} MoveExactByArrival(c: Clock, t: Timer, s: int)
    requires 0 <= c.hand < c.numSlots && TimerOk(c.numSlots, t) && s >= 1
    ensures var pos := (c.hand + s) % c.numSlots;
      var reached := Dist(c.numSlots, c.hand, t.pos);
      var wanted := Dist(c.numSlots, c.hand, pos);
      && (pos >= t.pos ==> (Remaining(c, Retime(c, t, s)) == s <==> reached <= wanted))
      && (pos < t.pos && s > c.numSlots ==> (Remaining(c, Retime(c, t, s)) == s <==> reached > wanted))
      && (pos < t.pos && s <= c.numSlots ==> Remaining(c, Retime(c, t, s)) == s)
  {
    MoveClosedForm(c, t, s);
    TargetExact(c, s);
  }

  lemma {:induction false} HandStep(n: int, hand: int)
    requires 0 <= hand < n
    ensures (hand + 1) % n == if hand + 1 == n then 0 else hand + 1
  {
  }

  lemma {:induction false} ShiftedSlot(n: int, hand: int, diff: int)
    requires 0 <= hand < n && 0 < diff < n
    ensures (hand + diff) % n == if hand + diff < n then hand + diff else hand + diff - n
    ensures (hand + diff) % n != hand
    ensures Dist(n, hand, (hand + diff) % n) == diff
  {
    if hand + diff < n {
      DivModUnique(hand + diff, n, 0, hand + diff);
    } else {
      DivModUnique(hand + diff, n, 1, hand + diff - n);
    }
  }

  /** One tick: a timer fires if and only if one tick was left, and otherwise has one tick less. */
  lemma {:induction false} TickCountsDown(c: Clock, k: Key)
    requires ClockOk(c) && k in c.timers
    ensures Fires(c, k) <==> Remaining(c, c.timers[k]) == 1
    ensures !Fires(c, k) ==> k in Tick(c).timers
    ensures !Fires(c, k) ==> TimerOk(c.numSlots, Tick(c).timers[k])
    ensures !Fires(c, k) ==> Tick(c).timers[k].value == c.timers[k].value
    ensures !Fires(c, k) ==> Remaining(Tick(c), Tick(c).timers[k]) == Remaining(c, c.timers[k]) - 1
  {
    var n := c.numSlots;
    var t := c.timers[k];
    assert TimerOk(n, t);
    HandStep(n, c.hand);
    var hand := NextHand(c);
    if t.circle > 0 {
      assert n * t.circle >= n * 1;
      assert n * (t.circle - 1) == n * t.circle - n;
    } else {
      assert n * t.circle == 0;
    }
    if t.pos == hand && t.circle == 0 && t.diff > 0 {
      ShiftedSlot(n, hand, t.diff);
    }
  }

  lemma {:induction false} RemainingPositive(c: Clock, k: Key)
    requires ClockOk(c) && k in c.timers
    ensures Remaining(c, c.timers[k]) >= 1
  {
    assert TimerOk(c.numSlots, c.timers[k]);
    assert c.numSlots * c.timers[k].circle >= 0;
  }

  lemma {:induction false} TickOk(c: Clock)
    requires ClockOk(c)
    ensures ClockOk(Tick(c)) && Tick(c).timers.Keys <= c.timers.Keys
  {
    HandStep(c.numSlots, c.hand);
    forall k | k in Tick(c).timers ensures TimerOk(c.numSlots, Tick(c).timers[k]) {
      TickCountsDown(c, k);
    }
  }

  // ----------------------------------------------------- ticks of a single timer

  /** The wheel after m ticks. */
  function TickTimes(c: Clock, m: nat): (c': Clock)
    requires c.numSlots > 0
    ensures c'.numSlots == c.numSlots
  {
    if m == 0 then c else Tick(TickTimes(c, m - 1))
  }

  /** Ticks of a wheel without timers turn the hand. */
  lemma {:induction false} EmptyTicks(n: int, hand: int, m: nat)
    requires 0 <= hand && hand + m < n
    ensures TickTimes(Clock(n, hand, map[]), m) == Clock(n, hand + m, map[])
  {
    if m > 0 {
      EmptyTicks(n, hand, m - 1);
      HandStep(n, hand + m - 1);
    }
  }

  lemma {:induction false} TickSingle(n: int, hand: int, k: Key, t: Timer)
    requires 0 <= hand && hand + 1 < n && VisitTimer(n, hand + 1, t).Keep?
    ensures Tick(Clock(n, hand, map[k := t])) == Clock(n, hand + 1, map[k := VisitTimer(n, hand + 1, t).timer])
  {
    HandStep(n, hand);
  }

  /** Ticks that do not reach the slot of the only timer turn the hand and leave the timer alone. */
  lemma {:induction false} QuietTicks(n: int, hand: int, k: Key, t: Timer, m: nat)
    requires 0 <= hand && hand + m < n && (t.pos <= hand || hand + m < t.pos)
    ensures TickTimes(Clock(n, hand, map[k := t]), m) == Clock(n, hand + m, map[k := t])
  {
    if m > 0 {
      QuietTicks(n, hand, k, t, m - 1);
      TickSingle(n, hand + m - 1, k, t);
    }
  }

  /**
   From an empty wheel of ten slots with the hand at 9: a timer set for 14 ticks
   and moved to 3 ticks after six of them has 13 left.
   */
  lemma {:induction false} MoveNotExact(k: Key, v: Value)
    ensures var c := TickTimes(Set(Clock(10, 9, map[]), k, v, 14), 6);
      && 0 <= c.hand < c.numSlots && k in c.timers && k in Move(c, k, 3).timers
      && Remaining(c, c.timers[k]) == 8 && Remaining(Move(c, k, 3), Move(c, k, 3).timers[k]) == 13
  {
    var c0 := Clock(10, 9, map[k := Timer(v, 3, 1, 0)]);
    assert Set(Clock(10, 9, map[]), k, v, 14) == c0 by {
      assert (9 + 14) % 10 == 3 && (14 - 1) / 10 == 1;
    }
    var c1 := Tick(c0);
    assert c1 == Clock(10, 0, map[k := Timer(v, 3, 1, 0)]) == TickTimes(c0, 1);
    TicksAdd(c0, 1, 5);
    MoreTicks(c1, k, v);
    assert (5 + 3) % 10 == 8 && (3 - 1) / 10 == 0;
  }

  lemma {:induction false} MoreTicks(c: Clock, k: Key, v: Value)
    requires c == Clock(10, 0, map[k := Timer(v, 3, 1, 0)])
    ensures TickTimes(c, 5) == Clock(10, 5, map[k := Timer(v, 3, 0, 0)])
  {
    QuietTicks(10, 0, k, Timer(v, 3, 1, 0), 2);
    TickSingle(10, 2, k, Timer(v, 3, 1, 0));
    assert TickTimes(c, 3) == Clock(10, 3, map[k := Timer(v, 3, 0, 0)]);
    TicksAdd(c, 3, 2);
    QuietTicks(10, 3, k, Timer(v, 3, 0, 0), 2);
  }

  lemma {:induction false} TicksAdd(c: Clock, a: nat, b: nat)
    requires c.numSlots > 0
    ensures TickTimes(c, a + b) == TickTimes(TickTimes(c, a), b)
  {
    if b > 0 {
      TicksAdd(c, a, b - 1);
    }
  }

  // -------------------------------------------------------------- whole runs

  datatype Op =
    | OpSet(key: Key, value: Value, steps: int)
    | OpMove(key: Key, steps: int)
    | OpRemove(key: Key)
    | OpTick

  predicate OpOk(op: Op)
  {
    (op.OpSet? || op.OpMove?) ==> op.steps >= 1
  }

  function Do(c: Clock, op: Op): (c': Clock)
    requires 0 <= c.hand < c.numSlots && OpOk(op)
  {
    match op
    case OpSet(k, v, s) => Set(c, k, v, s)
    case OpMove(k, s) => Move(c, k, s)
    case OpRemove(k) => Remove(c, k)
    case OpTick => Tick(c)
  }

  /** Every operation keeps the shape of the wheel: slots, circles and shifts in range. */
  lemma {:induction false} DoKeepsOk(c: Clock, op: Op)
    requires ClockOk(c) && OpOk(op)
    ensures ClockOk(Do(c, op)) && Do(c, op).numSlots == c.numSlots
  {
    match op {
      case OpSet(k, v, s) =>
        TargetExact(c, s);
        if k in c.timers {
          MoveClosedForm(c, c.timers[k].(value := v), s);
        }
      case OpMove(k, s) =>
        if k in c.timers {
          MoveClosedForm(c, c.timers[k], s);
        }
      case OpRemove(k) =>
      case OpTick => TickOk(c);
    }
  }

  function DoAll(c: Clock, ops: seq<Op>): (c': Clock)
    requires ClockOk(c) && forall i :: 0 <= i < |ops| ==> OpOk(ops[i])
    ensures ClockOk(c') && c'.numSlots == c.numSlots
    decreases |ops|
  {
    if ops == [] then c
    else
      DoKeepsOk(c, ops[0]);
      DoAll(Do(c, ops[0]), ops[1..])
  }

  function Ticks(ops: seq<Op>): (n: nat)
    decreases |ops|
  {
    if ops == [] then 0 else (if ops[0].OpTick? then 1 else 0) + Ticks(ops[1..])
  }

  /** Whether the j-th operation of the run is a tick that runs the task of k. */
  predicate FiresAt(c: Clock, ops: seq<Op>, j: nat, k: Key)
    requires ClockOk(c) && forall i :: 0 <= i < |ops| ==> OpOk(ops[i])
    requires j < |ops|
  {
    ops[j].OpTick? && Fires(DoAll(c, ops[..j]), k)
  }

  predicate Leaves(op: Op, k: Key)
  {
    op.OpTick? || op.key != k
  }

  lemma {:induction false} OthersUntouched(c: Clock, op: Op, k: Key)
    requires ClockOk(c) && OpOk(op) && Leaves(op, k) && !op.OpTick?
    ensures k in Do(c, op).timers <==> k in c.timers
    ensures k in c.timers ==> Do(c, op).timers[k] == c.timers[k]
    ensures Do(c, op).hand == c.hand && Do(c, op).numSlots == c.numSlots
  {
  }

  lemma {:induction false} AbsentNeverFires(c: Clock, ops: seq<Op>, j: nat, k: Key)
    requires ClockOk(c) && forall i :: 0 <= i < |ops| ==> OpOk(ops[i])
    requires forall i :: 0 <= i < |ops| ==> ops[i].OpSet? ==> ops[i].key != k
    requires k !in c.timers && j < |ops|
    ensures !FiresAt(c, ops, j, k)
    decreases j
  {
    if j > 0 {
      DoKeepsOk(c, ops[0]);
      assert ops[..j][1..] == ops[1..][..j - 1];
      AbsentNeverFires(Do(c, ops[0]), ops[1..], j - 1, k);
    } else {
      assert ops[..0] == [];
    }
  }

  /**
   Over every run that leaves k alone, whatever it does to other keys, the task
   of k runs at exactly the tick its remaining count says, and at no other.
   */
  lemma {:induction false} FiresOnTime(c: Clock, ops: seq<Op>, j: nat, k: Key)
    requires ClockOk(c) && forall i :: 0 <= i < |ops| ==> OpOk(ops[i])
    requires forall i :: 0 <= i < |ops| ==> Leaves(ops[i], k)
    requires k in c.timers && j < |ops|
    ensures FiresAt(c, ops, j, k) <==> ops[j].OpTick? && Ticks(ops[..j]) == Remaining(c, c.timers[k]) - 1
    decreases j
  {
    if j == 0 {
      assert ops[..0] == [];
      TickCountsDown(c, k);
    } else {
      var c' := Do(c, ops[0]);
      DoKeepsOk(c, ops[0]);
      assert ops[..j][1..] == ops[1..][..j - 1];
      assert ops[..j][0] == ops[0];
      assert FiresAt(c, ops, j, k) <==> FiresAt(c', ops[1..], j - 1, k);
      if !ops[0].OpTick? {
        OthersUntouched(c, ops[0], k);
        FiresOnTime(c', ops[1..], j - 1, k);
      } else {
        TickCountsDown(c, k);
        if Fires(c, k) {
          AbsentNeverFires(c', ops[1..], j - 1, k);
        } else {
          FiresOnTime(c', ops[1..], j - 1, k);
        }
      }
    }
  }

  /** A task set for an absent key runs exactly max(1, delay / interval) ticks later, once. */
  lemma {:induction false} SetFiresOnce(c: Clock, k: Key, v: Value, interval: int, delay: int, ops: seq<Op>, j: nat)
    requires ClockOk(c) && k !in c.timers && interval > 0
    requires forall i :: 0 <= i < |ops| ==> OpOk(ops[i]) && Leaves(ops[i], k)
    requires j < |ops|
    ensures Steps(interval, delay) >= 1 && ClockOk(Set(c, k, v, Steps(interval, delay)))
    ensures FiresAt(Set(c, k, v, Steps(interval, delay)), ops, j, k)
            <==> ops[j].OpTick? && Ticks(ops[..j]) + 1 == Steps(interval, delay)
  {
    var s := Steps(interval, delay);
    InsertExact(c, k, v, s);
    FiresOnTime(Insert(c, k, v, s), ops, j, k);
  }

  /** A removed task never runs until its key is set again. */
  lemma {:induction false} RemovedNeverFires(c: Clock, k: Key, ops: seq<Op>, j: nat)
    requires ClockOk(c) && forall i :: 0 <= i < |ops| ==> OpOk(ops[i])
    requires forall i :: 0 <= i < |ops| ==> ops[i].OpSet? ==> ops[i].key != k
    requires j < |ops|
    ensures ClockOk(Remove(c, k)) && !FiresAt(Remove(c, k), ops, j, k)
  {
    AbsentNeverFires(Remove(c, k), ops, j, k);
  }

  /** A moved task runs once, s ticks later up to the move error. */
  lemma {:induction false} MoveFiresOnce(c: Clock, k: Key, s: int, ops: seq<Op>, j: nat)
    requires ClockOk(c) && k in c.timers && s >= 1
    requires forall i :: 0 <= i < |ops| ==> OpOk(ops[i]) && Leaves(ops[i], k)
    requires j < |ops|
    ensures ClockOk(Move(c, k, s))
    ensures FiresAt(Move(c, k, s), ops, j, k)
            <==> ops[j].OpTick? && Ticks(ops[..j]) + 1 == s + MoveError(c, c.timers[k], s)
  {
    DoKeepsOk(c, OpMove(k, s));
    assert TimerOk(c.numSlots, c.timers[k]);
    MoveClosedForm(c, c.timers[k], s);
    FiresOnTime(Move(c, k, s), ops, j, k);
  }

  // ------------------------------------------ the countdown the wheel stands for

  /** The plain reference: every key with its value and the ticks it has left. */
  ghost function Countdown(c: Clock): (m: map<Key, (Value, int)>)
  {
    map k | k in c.timers :: (c.timers[k].value, Remaining(c, c.timers[k]))
  }

  /** The reference semantics of the operations, with the move error as given. */
  ghost function DoCountdown(m: map<Key, (Value, int)>, op: Op, error: int): (m': map<Key, (Value, int)>)
  {
    match op
    case OpSet(k, v, s) => m[k := (v, s + error)]
    case OpMove(k, s) => if k in m then m[k := (m[k].0, s + error)] else m
    case OpRemove(k) => m - {k}
    case OpTick => map k | k in m && m[k].1 != 1 :: (m[k].0, m[k].1 - 1)
  }

  function ErrorOf(c: Clock, op: Op): (e: int)
    requires 0 <= c.hand < c.numSlots && OpOk(op)
  {
    if (op.OpSet? || op.OpMove?) && op.key in c.timers then MoveError(c, c.timers[op.key], op.steps) else 0
  }

  lemma {:induction false} TickRefinesCountdown(c: Clock)
    requires ClockOk(c)
    ensures Countdown(Tick(c)) == DoCountdown(Countdown(c), OpTick, 0)
  {
    forall k | k in c.timers
      ensures !Fires(c, k) <==> Countdown(c)[k].1 != 1
      ensures !Fires(c, k) ==> Countdown(Tick(c))[k] == (Countdown(c)[k].0, Countdown(c)[k].1 - 1)
    {
      TickCountsDown(c, k);
    }
  }

  lemma {:induction false} SetRefinesCountdown(c: Clock, k: Key, v: Value, s: int)
    requires ClockOk(c) && s >= 1
    ensures Countdown(Set(c, k, v, s)) == Countdown(c)[k := (v, s + ErrorOf(c, OpSet(k, v, s)))]
  {
    if k in c.timers {
      assert TimerOk(c.numSlots, c.timers[k]);
      MoveClosedForm(c, c.timers[k].(value := v), s);
    } else {
      InsertExact(c, k, v, s);
    }
  }

  lemma {:induction false} MoveRefinesCountdown(c: Clock, k: Key, s: int)
    requires ClockOk(c) && s >= 1 && k in c.timers
    ensures Countdown(Move(c, k, s)) == Countdown(c)[k := (c.timers[k].value, s + MoveError(c, c.timers[k], s))]
  {
    assert TimerOk(c.numSlots, c.timers[k]);
    MoveClosedForm(c, c.timers[k], s);
  }

  /** Every operation refines its countdown, exactly when the move error is zero. */
  lemma {:induction false} DoRefinesCountdown(c: Clock, op: Op)
    requires ClockOk(c) && OpOk(op)
    ensures Countdown(Do(c, op)) == DoCountdown(Countdown(c), op, ErrorOf(c, op))
  {
    match op {
      case OpSet(k, v, s) => SetRefinesCountdown(c, k, v, s);
      case OpMove(k, s) =>
        if k in c.timers {
          MoveRefinesCountdown(c, k, s);
        }
      case OpRemove(k) =>
      case OpTick => TickRefinesCountdown(c);
    }
  }

  ghost function RunCountdown(m: map<Key, (Value, int)>, ops: seq<Op>): (m': map<Key, (Value, int)>)
    decreases |ops|
  {
    if ops == [] then m else RunCountdown(DoCountdown(m, ops[0], 0), ops[1..])
  }

  /** No operation of the run sets or moves a key that has a timer at that point. */
  ghost predicate FreshRun(c: Clock, ops: seq<Op>)
    requires ClockOk(c) && forall i :: 0 <= i < |ops| ==> OpOk(ops[i])
    decreases |ops|
  {
    ops == [] ||
    (&& (ops[0].OpSet? || ops[0].OpMove? ==> ops[0].key !in c.timers)
     && ClockOk(Do(c, ops[0]))
     && FreshRun(Do(c, ops[0]), ops[1..]))
  }

  /** Over every run of setting absent keys, removing and ticking, the wheel is its countdown. */
  lemma {:induction false} FreshRunRefines(c: Clock, ops: seq<Op>)
    requires ClockOk(c) && forall i :: 0 <= i < |ops| ==> OpOk(ops[i])
    requires FreshRun(c, ops)
    ensures Countdown(DoAll(c, ops)) == RunCountdown(Countdown(c), ops)
    decreases |ops|
  {
    if ops != [] {
      DoRefinesCountdown(c, ops[0]);
      FreshRunRefines(Do(c, ops[0]), ops[1..]);
    }
  }
}
