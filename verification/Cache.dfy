/**
 The expiring LRU cache of infra/collection/cache.go: a value map, a recency
 list with its element index, and a timing wheel that deletes expired keys.

 Each cache operation is one step.  An expiration is delivered by a goroutine of
 its own: the tick or move that causes it only makes the deletion due, and the
 deletion is a later step.  The randomised expiry is a parameter.
 */
module Caches {
  import opened Options
  import opened SafeMaps
  import opened TimingWheels
  import W = WheelClock

  const SECOND: int := 1_000_000_000
  const SLOTS: int := 300

  /** What a cache holds: values, recency (most recent first), the timers, and the deletions that goroutines still have to make. */
  datatype Store = Store(values: map<Key, Value>, order: seq<Key>, clock: W.Clock, due: multiset<Key>)

  // ------------------------------------------------------------ recency lists

  ghost predicate Distinct(s: seq<Key>)
  {
    forall i, j :: 0 <= i < j < |s| ==> s[i] != s[j]
  }

  /** The list without the given keys. */
  function Drop(s: seq<Key>, gone: set<Key>): (r: seq<Key>)
    ensures forall x :: x in r <==> x in s && x !in gone
    ensures |r| <= |s|
  {
    if s == [] then []
    else if s[0] in gone then Drop(s[1..], gone)
    else [s[0]] + Drop(s[1..], gone)
  }

  lemma {:induction false} DropDistinct(s: seq<Key>, gone: set<Key>)
    requires Distinct(s)
    ensures Distinct(Drop(s, gone))
  {
    if s != [] {
      DropDistinct(s[1..], gone);
      if s[0] !in gone {
      }
    }
  }

  function Members(s: seq<Key>): (ks: set<Key>)
  {
    set k | k in s
  }

  /** Without its last key a list holds the other keys. */
  lemma {:induction false} LastOut(s: seq<Key>)
    requires Distinct(s) && s != []
    ensures Distinct(s[..|s| - 1]) && Members(s[..|s| - 1]) == Members(s) - {s[|s| - 1]}
  {
    var n := |s| - 1;
    forall x | x in s && x != s[n] ensures x in s[..n] {
      var i :| 0 <= i < |s| && s[i] == x;
      assert s[..n][i] == x;
    }
  }

  lemma {:induction false} DropShorter(s: seq<Key>, k: Key)
    requires k in s
    ensures |Drop(s, {k})| < |s|
  {
    if s[0] != k {
      DropShorter(s[1..], k);
    }
  }

  lemma {:induction false} DropTwice(s: seq<Key>, a: set<Key>, b: set<Key>)
    ensures Drop(Drop(s, a), b) == Drop(s, a + b)
  {
    if s != [] {
      DropTwice(s[1..], a, b);
      if s[0] !in a {
        assert Drop(s, a)[1..] == Drop(s[1..], a);
      }
    }
  }

  lemma {:induction false} DropNothing(s: seq<Key>, gone: set<Key>)
    requires forall x :: x in s ==> x !in gone
    ensures Drop(s, gone) == s
  {
    if s != [] {
      assert forall x :: x in s[1..] ==> x in s;
      DropNothing(s[1..], gone);
    }
  }

  // -------------------------------------------------------------- operations

  /** keyLru.add: to the front; a new key beyond the limit pushes the last one out. */
  function TouchOrder(limit: int, order: seq<Key>, k: Key): (r: seq<Key>)
  {
    if limit <= 0 then order
    else if k in order then [k] + Drop(order, {k})
    else if |order| + 1 > limit then ([k] + order)[..|order|]
    else [k] + order
  }

  function Victim(limit: int, order: seq<Key>, k: Key): (r: Option<Key>)
  {
    if limit > 0 && k !in order && |order| + 1 > limit then Some(([k] + order)[|order|]) else None
  }

  /** lruCache.add with its eviction callback. */
  function Touch(limit: int, s: Store, k: Key): (s': Store)
  {
    var order := TouchOrder(limit, s.order, k);
    match Victim(limit, s.order, k)
    case None => s.(order := order)
    case Some(x) => Store(s.values - {x}, order, W.Remove(s.clock, x), s.due)
  }

  function Delete(s: Store, k: Key): (s': Store)
  {
    Store(s.values - {k}, Drop(s.order, {k}), W.Remove(s.clock, k), s.due)
  }

  /** MoveTimer: rejects a non-positive delay; under one interval the task, a delete, is started at once. */
  function MoveTimer(s: Store, k: Key, expiry: int): (s': Store)
    requires 0 <= s.clock.hand < s.clock.numSlots
  {
    if expiry <= 0 then s
    else if expiry < SECOND then (if k in s.clock.timers then s.(due := s.due + multiset{k}) else s)
    else s.(clock := W.Move(s.clock, k, W.Steps(SECOND, expiry)))
  }

  function SetTimer(s: Store, k: Key, v: Value, expiry: int): (s': Store)
    requires 0 <= s.clock.hand < s.clock.numSlots
  {
    if expiry <= 0 then s else s.(clock := W.Set(s.clock, k, v, W.Steps(SECOND, expiry)))
  }

  /** SetWithExpire: LoadOrStore keeps the value of a key that is present. */
  function Put(limit: int, s: Store, k: Key, v: Value, expiry: int): (s': Store)
    requires 0 <= s.clock.hand < s.clock.numSlots
  {
    if k in s.values then MoveTimer(Touch(limit, s, k), k, expiry)
    else SetTimer(Touch(limit, s.(values := s.values[k := v]), k), k, v, expiry)
  }

  function Read(limit: int, s: Store, k: Key): (s': Store)
  {
    if k in s.values then Touch(limit, s, k) else s
  }

  function Expired(s: Store): (ks: set<Key>)
    requires s.clock.numSlots > 0
  {
    set k | k in s.clock.timers && W.Fires(s.clock, k)
  }

  /** One tick of the wheel: the deletion of every key that fires is due. */
  function Tick(s: Store): (s': Store)
    requires s.clock.numSlots > 0
  {
    s.(clock := W.Tick(s.clock), due := s.due + multiset(Expired(s)))
  }

  /** A goroutine makes a deletion that is due. */
  function Expire(s: Store, k: Key): (s': Store)
  {
    if k in s.due then Delete(s, k).(due := s.due - multiset{k}) else s
  }

  // --------------------------------------------------------------- invariant

  /**
   The recency list holds exactly the stored keys, each once, and never more
   than the limit; only stored keys have timers.
   */
  ghost predicate StoreOk(limit: int, s: Store)
  {
    && Distinct(s.order)
    && (if limit > 0 then |s.order| <= limit && (forall k :: k in s.order <==> k in s.values) else s.order == [])
    && s.clock.timers.Keys <= s.values.Keys
    && W.ClockOk(s.clock)
  }

  /** A new key beyond the limit takes the place of the last one. */
  lemma {:induction false} PushedOut(order: seq<Key>, k: Key, values: set<Key>)
    requires Distinct(order) && k !in order && forall x :: x in order || x == k <==> x in values
    ensures var all := [k] + order;
      var x := all[|order|];
      && Distinct(all[..|order|]) && (forall y :: y in all[..|order|] <==> y in values - {x})
      && (order != [] ==> k in values - {x})
  {
    var all := [k] + order;
    LastOut(all);
    forall y ensures y in all[..|order|] <==> y in values - {all[|order|]} {
      assert y in Members(all[..|order|]) <==> y in Members(all) - {all[|order|]};
    }
  }

  lemma {:induction false} TouchOk(limit: int, s: Store, k: Key)
    requires Distinct(s.order) && W.ClockOk(s.clock) && s.clock.timers.Keys <= s.values.Keys && k in s.values
    requires if limit > 0 then |s.order| <= limit && (forall x :: x in s.order || x == k <==> x in s.values)
             else s.order == []
    ensures StoreOk(limit, Touch(limit, s, k)) && k in Touch(limit, s, k).values
    ensures Touch(limit, s, k).clock.hand == s.clock.hand && Touch(limit, s, k).clock.numSlots == s.clock.numSlots
  {
    if limit > 0 {
      if k in s.order {
        DropDistinct(s.order, {k});
        DropShorter(s.order, k);
      } else if |s.order| + 1 > limit {
        PushedOut(s.order, k, s.values.Keys);
      }
    }
  }

  lemma {:induction false} DeleteOk(limit: int, s: Store, k: Key)
    requires StoreOk(limit, s)
    ensures StoreOk(limit, Delete(s, k))
  {
    DropDistinct(s.order, {k});
  }

  datatype Op =
    | OpPut(key: Key, value: Value, expiry: int)
    | OpRead(key: Key)
    | OpDelete(key: Key)
    | OpExpire(key: Key)
    | OpTick

  function Do(limit: int, s: Store, op: Op): (s': Store)
    requires 0 <= s.clock.hand < s.clock.numSlots
  {
    match op
    case OpPut(k, v, expiry) => Put(limit, s, k, v, expiry)
    case OpRead(k) => Read(limit, s, k)
    case OpDelete(k) => Delete(s, k)
    case OpExpire(k) => Expire(s, k)
    case OpTick => Tick(s)
  }

  lemma {:induction false} PutOk(limit: int, s: Store, k: Key, v: Value, expiry: int)
    requires StoreOk(limit, s)
    ensures StoreOk(limit, Put(limit, s, k, v, expiry))
  {
    var loaded := k in s.values;
    var s1 := if loaded then s else s.(values := s.values[k := v]);
    TouchOk(limit, s1, k);
    var s2 := Touch(limit, s1, k);
    if expiry > 0 {
      var steps := W.Steps(SECOND, expiry);
      W.DoKeepsOk(s2.clock, if loaded then W.OpMove(k, steps) else W.OpSet(k, v, steps));
    }
  }

  lemma {:induction false} TickOk(limit: int, s: Store)
    requires StoreOk(limit, s)
    ensures StoreOk(limit, Tick(s))
  {
    W.TickOk(s.clock);
  }

  /** Every operation keeps data, recency list and timers in step and within the limit. */
  lemma {:induction false} DoKeepsOk(limit: int, s: Store, op: Op)
    requires StoreOk(limit, s)
    ensures StoreOk(limit, Do(limit, s, op))
  {
    match op {
      case OpPut(k, v, expiry) => PutOk(limit, s, k, v, expiry);
      case OpRead(k) =>
        if k in s.values {
          TouchOk(limit, s, k);
        }
      case OpDelete(k) => DeleteOk(limit, s, k);
      case OpExpire(k) => DeleteOk(limit, s, k);
      case OpTick => TickOk(limit, s);
    }
  }

  // -------------------------------------------------------------- whole runs

  function DoAll(limit: int, s: Store, ops: seq<Op>): (s': Store)
    requires StoreOk(limit, s)
    ensures StoreOk(limit, s')
    decreases |ops|
  {
    if ops == [] then s
    else
      DoKeepsOk(limit, s, ops[0]);
      DoAll(limit, Do(limit, s, ops[0]), ops[1..])
  }

  function EmptyStore(): (s: Store)
  {
    Store(map[], [], W.Clock(SLOTS, SLOTS - 1, map[]), multiset{})
  }

  /** A limited cache never holds more than its limit, whatever is done to it. */
  lemma {:induction false} NeverOverLimit(limit: int, ops: seq<Op>)
    requires limit > 0
    ensures var s := DoAll(limit, EmptyStore(), ops);
      |s.values| <= limit && Members(s.order) == s.values.Keys
  {
    var s := DoAll(limit, EmptyStore(), ops);
    SetOfDistinct(s.order);
    assert Members(s.order) == s.values.Keys;
  }

  lemma {:induction false} SetOfDistinct(s: seq<Key>)
    requires Distinct(s)
    ensures |Members(s)| == |s|
  {
    if s != [] {
      var t := s[1..];
      SetOfDistinct(t);
      assert Members(s) == Members(t) + {s[0]};
    }
  }

  ghost function DeleteMany(s: Store, gone: set<Key>): (s': Store)
  {
    Store(s.values - gone, Drop(s.order, gone), s.clock.(timers := s.clock.timers - gone), s.due)
  }

  /** The store once every deletion that is due has been made. */
  ghost function Settled(s: Store): (s': Store)
  {
    DeleteMany(s, set k | k in s.due).(due := multiset{})
  }

  /** Every stored key has a timer or a deletion that is due. */
  ghost predicate TimedOrDue(s: Store)
  {
    forall k :: k in s.values ==> k in s.clock.timers || k in s.due
  }

  /**
   With positive expiries, after any run, every stored key has a timer or a
   deletion that is due; once the due deletions are made, the keys with a timer
   are exactly the stored keys.
   */
  lemma {:induction false} TimersCoincide(limit: int, s: Store, ops: seq<Op>)
    requires StoreOk(limit, s) && TimedOrDue(s)
    requires forall i :: 0 <= i < |ops| ==> ops[i].OpPut? ==> ops[i].expiry > 0
    ensures var s' := DoAll(limit, s, ops);
      TimedOrDue(s') && Settled(s').clock.timers.Keys == Settled(s').values.Keys
    decreases |ops|
  {
    if ops == [] {
      assert Settled(s).clock.timers.Keys == Settled(s).values.Keys;
    } else {
      DoKeepsOk(limit, s, ops[0]);
      TimersCoincideStep(limit, s, ops[0]);
      TimersCoincide(limit, Do(limit, s, ops[0]), ops[1..]);
    }
  }

  lemma {:induction false} TimersCoincideStep(limit: int, s: Store, op: Op)
    requires StoreOk(limit, s) && TimedOrDue(s)
    requires op.OpPut? ==> op.expiry > 0
    ensures TimedOrDue(Do(limit, s, op))
  {
    match op {
      case OpPut(k, v, expiry) => PutTimed(limit, s, k, v, expiry);
      case OpRead(k) => TouchTimed(limit, s, k);
      case OpDelete(k) => DeleteTimed(s, k);
      case OpExpire(k) => DeleteTimed(s, k);
      case OpTick => TickTimed(limit, s);
    }
  }

  lemma {:induction false} TouchTimed(limit: int, s: Store, k: Key)
    ensures var s' := Touch(limit, s, k);
      && s'.due == s.due
      && forall x :: x in s'.values ==> x in s.values && (x in s.clock.timers ==> x in s'.clock.timers)
  {
  }

  lemma {:induction false} PutTimed(limit: int, s: Store, k: Key, v: Value, expiry: int)
    requires StoreOk(limit, s) && TimedOrDue(s) && expiry > 0
    ensures TimedOrDue(Put(limit, s, k, v, expiry))
  {
    if k in s.values {
      TouchTimed(limit, s, k);
    } else {
      TouchTimed(limit, s.(values := s.values[k := v]), k);
    }
  }

  lemma {:induction false} DeleteTimed(s: Store, k: Key)
    requires TimedOrDue(s)
    ensures TimedOrDue(Delete(s, k)) && TimedOrDue(Expire(s, k))
  {
    forall x | x in s.values && x != k ensures x in Delete(s, k).clock.timers || x in s.due - multiset{k} {
      assert x in s.clock.timers || x in s.due;
    }
  }

  lemma {:induction false} TickTimed(limit: int, s: Store)
    requires StoreOk(limit, s) && TimedOrDue(s)
    ensures TimedOrDue(Tick(s))
  {
    forall k | k in s.values ensures k in Tick(s).clock.timers || k in Tick(s).due {
      assert k in s.clock.timers || k in s.due;
    }
  }

  /** A key set with a non-positive expiry stays without a timer: SetTimer refuses it. */
  lemma {:induction false} NoTimerForNonPositiveExpiry(limit: int, s: Store, k: Key, v: Value, expiry: int)
    requires StoreOk(limit, s) && k !in s.values && expiry <= 0
    ensures var s' := Put(limit, s, k, v, expiry);
      k in s'.values && k !in s'.clock.timers
  {
    TouchOk(limit, s.(values := s.values[k := v]), k);
  }

  // ------------------------------------------------------------ first value wins

  /** A present key keeps its value as long as it stays present. */
  lemma {:induction false} ValueKept(limit: int, s: Store, op: Op, k: Key)
    requires StoreOk(limit, s) && k in s.values && k in Do(limit, s, op).values
    ensures Do(limit, s, op).values[k] == s.values[k]
  {
  }

  /** The key is present after each of the operations. */
  ghost predicate StaysPresent(limit: int, s: Store, ops: seq<Op>, k: Key)
    requires StoreOk(limit, s)
    decreases |ops|
  {
    k in s.values &&
    (ops == [] || (DoKeepsOk(limit, s, ops[0]); StaysPresent(limit, Do(limit, s, ops[0]), ops[1..], k)))
  }

  /**
   Reading a key gives the value of the first Set since the key was last
   absent: later Sets of a present key do not replace it.
   */
  lemma {:induction false} FirstValueWins(limit: int, s: Store, k: Key, v: Value, expiry: int, ops: seq<Op>)
    requires StoreOk(limit, s) && k !in s.values
    requires StoreOk(limit, Put(limit, s, k, v, expiry)) && StaysPresent(limit, Put(limit, s, k, v, expiry), ops, k)
    ensures k in DoAll(limit, Put(limit, s, k, v, expiry), ops).values
    ensures DoAll(limit, Put(limit, s, k, v, expiry), ops).values[k] == v
  {
    PresentKeepsValue(limit, Put(limit, s, k, v, expiry), ops, k);
  }

  lemma {:induction false} PresentKeepsValue(limit: int, s: Store, ops: seq<Op>, k: Key)
    requires StoreOk(limit, s) && StaysPresent(limit, s, ops, k)
    ensures k in DoAll(limit, s, ops).values && DoAll(limit, s, ops).values[k] == s.values[k]
    decreases |ops|
  {
    if ops != [] {
      DoKeepsOk(limit, s, ops[0]);
      PresentKeepsValue(limit, Do(limit, s, ops[0]), ops[1..], k);
      ValueKept(limit, s, ops[0], k);
    }
  }

  // --------------------------------------------------- least recently used first

  /** Every listed key has a time stamp before `now`, and later in the list means touched earlier. */
  ghost predicate Stamped(order: seq<Key>, stamp: map<Key, int>, now: int)
  {
    && (forall i :: 0 <= i < |order| ==> order[i] in stamp && stamp[order[i]] < now)
    && (forall i, j :: 0 <= i < j < |order| ==> stamp[order[i]] > stamp[order[j]])
  }

  /** The reference: when each key was last touched, by a Set or by a Get that found it. */
  function Stamp(s: Store, stamp: map<Key, int>, now: int, op: Op): (stamp': map<Key, int>)
  {
    if op.OpPut? || (op.OpRead? && op.key in s.values) then stamp[op.key := now] else stamp
  }

  lemma {:induction false} StampedCons(x: Key, r: seq<Key>, stamp: map<Key, int>, now: int)
    requires x in stamp && stamp[x] < now && Stamped(r, stamp, now)
    requires forall j :: 0 <= j < |r| ==> stamp[r[j]] < stamp[x]
    ensures Stamped([x] + r, stamp, now)
  {
  }

  lemma {:induction false} StampedTail(s: seq<Key>, stamp: map<Key, int>, now: int)
    requires s != [] && Stamped(s, stamp, now)
    ensures Stamped(s[1..], stamp, now)
    ensures forall y :: y in s[1..] ==> y in stamp && stamp[y] < stamp[s[0]]
  {
  }

  lemma {:induction false} DropStamped(s: seq<Key>, gone: set<Key>, stamp: map<Key, int>, now: int)
    requires Stamped(s, stamp, now)
    ensures Stamped(Drop(s, gone), stamp, now)
  {
    if s != [] {
      StampedTail(s, stamp, now);
      var r := Drop(s[1..], gone);
      DropStamped(s[1..], gone, stamp, now);
      if s[0] !in gone {
        forall j | 0 <= j < |r| ensures stamp[r[j]] < stamp[s[0]] {
          assert r[j] in r;
        }
        StampedCons(s[0], r, stamp, now);
      }
    }
  }

  lemma {:induction false} RestampOther(s: seq<Key>, k: Key, stamp: map<Key, int>, now: int)
    requires Stamped(s, stamp, now) && k !in s
    ensures Stamped(s, stamp[k := now], now + 1)
  {
  }

  lemma {:induction false} TouchStamped(limit: int, order: seq<Key>, k: Key, stamp: map<Key, int>, now: int)
    requires Stamped(order, stamp, now) && (limit > 0 || order == [])
    ensures Stamped(TouchOrder(limit, order, k), stamp[k := now], now + 1)
  {
    var rest := Drop(order, {k});
    DropStamped(order, {k}, stamp, now);
    RestampOther(rest, k, stamp, now);
    StampedCons(k, rest, stamp[k := now], now + 1);
    if k !in order {
      DropNothing(order, {k});
      StampedPrefix([k] + order, |order|, stamp[k := now], now + 1);
    }
  }

  lemma {:induction false} StampedPrefix(s: seq<Key>, n: nat, stamp: map<Key, int>, now: int)
    requires Stamped(s, stamp, now) && n <= |s|
    ensures Stamped(s[..n], stamp, now)
  {
  }

  /** Stamps along a run, starting at time `now`. */
  function StampAll(limit: int, s: Store, stamp: map<Key, int>, now: int, ops: seq<Op>): (stamp': map<Key, int>)
    requires StoreOk(limit, s)
    decreases |ops|
  {
    if ops == [] then stamp
    else
      DoKeepsOk(limit, s, ops[0]);
      StampAll(limit, Do(limit, s, ops[0]), Stamp(s, stamp, now, ops[0]), now + 1, ops[1..])
  }

  lemma {:induction false} StampedLater(order: seq<Key>, stamp: map<Key, int>, now: int)
    requires Stamped(order, stamp, now)
    ensures Stamped(order, stamp, now + 1)
  {
  }

  lemma {:induction false} PutOrder(limit: int, s: Store, k: Key, v: Value, expiry: int)
    requires StoreOk(limit, s)
    ensures Put(limit, s, k, v, expiry).order == TouchOrder(limit, s.order, k)
  {
  }

  lemma {:induction false} DoStamped(limit: int, s: Store, stamp: map<Key, int>, now: int, op: Op)
    requires StoreOk(limit, s) && Stamped(s.order, stamp, now)
    ensures Stamped(Do(limit, s, op).order, Stamp(s, stamp, now, op), now + 1)
  {
    StampedLater(s.order, stamp, now);
    match op {
      case OpPut(k, v, expiry) =>
        TouchStamped(limit, s.order, k, stamp, now);
        PutOrder(limit, s, k, v, expiry);
      case OpRead(k) => TouchStamped(limit, s.order, k, stamp, now);
      case OpDelete(k) => DropStamped(s.order, {k}, stamp, now + 1);
      case OpExpire(k) => DropStamped(s.order, {k}, stamp, now + 1);
      case OpTick =>
    }
  }

  lemma {:induction false} RunStamped(limit: int, s: Store, stamp: map<Key, int>, now: int, ops: seq<Op>)
    requires StoreOk(limit, s) && Stamped(s.order, stamp, now)
    ensures Stamped(DoAll(limit, s, ops).order, StampAll(limit, s, stamp, now, ops), now + |ops|)
    decreases |ops|
  {
    if ops != [] {
      DoKeepsOk(limit, s, ops[0]);
      DoStamped(limit, s, stamp, now, ops[0]);
      RunStamped(limit, Do(limit, s, ops[0]), Stamp(s, stamp, now, ops[0]), now + 1, ops[1..]);
    }
  }

  /**
   After any run, a Set that evicts removes exactly one key, and it is the one
   whose last touch is the oldest of all stored keys.
   */
  lemma {:induction false} EvictsLeastRecentlyUsed(limit: int, ops: seq<Op>, k: Key, v: Value, expiry: int)
    requires limit > 0
    requires k !in DoAll(limit, EmptyStore(), ops).values
    requires |DoAll(limit, EmptyStore(), ops).order| == limit
    ensures var s := DoAll(limit, EmptyStore(), ops);
      var stamp := StampAll(limit, EmptyStore(), map[], 0, ops);
      exists victim ::
        && victim in s.values && victim in stamp
        && Put(limit, s, k, v, expiry).values == s.values[k := v] - {victim}
        && (forall x :: x in s.values && x != victim ==> x in stamp && stamp[x] > stamp[victim])
  {
    var s := DoAll(limit, EmptyStore(), ops);
    var stamp := StampAll(limit, EmptyStore(), map[], 0, ops);
    RunStamped(limit, EmptyStore(), map[], 0, ops);
    var victim := s.order[limit - 1];
    assert victim in s.order;
    FullPutEvicts(limit, s, k, v, expiry);
    forall x | x in s.values && x != victim ensures x in stamp && stamp[x] > stamp[victim] {
      assert x in s.order;
      var i :| 0 <= i < |s.order| && s.order[i] == x;
    }
  }

  /** A Set of a new key on a full cache pushes the last key of the list out. */
  lemma {:induction false} FullPutEvicts(limit: int, s: Store, k: Key, v: Value, expiry: int)
    requires StoreOk(limit, s) && limit > 0 && k !in s.values && |s.order| == limit
    ensures Put(limit, s, k, v, expiry).values == s.values[k := v] - {s.order[limit - 1]}
  {
    assert Victim(limit, s.order, k) == Some(s.order[limit - 1]);
  }

  // -------------------------------------------------------------- expiration

  /** A tick makes the deletion of a key due if and only if its timer had one tick left; otherwise one tick is used up. */
  lemma {:induction false} TickExpires(limit: int, s: Store, k: Key)
    requires StoreOk(limit, s) && k in s.clock.timers
    ensures var s' := Tick(s);
      var left := W.Remaining(s.clock, s.clock.timers[k]);
      && s'.values == s.values
      && (k in s'.clock.timers <==> left != 1) && s'.due[k] == s.due[k] + (if left == 1 then 1 else 0)
      && (left != 1 ==> W.Remaining(s'.clock, s'.clock.timers[k]) == left - 1)
  {
    W.TickCountsDown(s.clock, k);
  }

  /** A newly stored key lives for exactly max(1, expiry / second) ticks of the wheel. */
  lemma {:induction false} FreshLifetime(limit: int, s: Store, k: Key, v: Value, expiry: int)
    requires StoreOk(limit, s) && k !in s.values && expiry > 0
    ensures var s' := Put(limit, s, k, v, expiry);
      k in s'.clock.timers && s'.due == s.due
      && W.Remaining(s'.clock, s'.clock.timers[k]) == if expiry < 1_000_000_000 then 1 else expiry / 1_000_000_000
  {
    var s1 := s.(values := s.values[k := v]);
    TouchOk(limit, s1, k);
    var s2 := Touch(limit, s1, k);
    W.InsertExact(s2.clock, k, v, W.Steps(SECOND, expiry));
  }

  /** Touching a stored key moves it to the front and evicts nothing. */
  lemma {:induction false} TouchStored(limit: int, s: Store, k: Key)
    requires StoreOk(limit, s) && k in s.values
    ensures Touch(limit, s, k).clock == s.clock && Touch(limit, s, k).values == s.values
  {
  }

  /**
   A key that is stored already and Set again.  From a second on its timer is
   moved, with the error of the wheel; under a second its deletion is due at once;
   without an expiry, or without a timer, nothing happens to its lifetime.
   */
  lemma {:induction false} ResetLifetime(limit: int, s: Store, k: Key, v: Value, expiry: int)
    requires StoreOk(limit, s) && k in s.values
    ensures var s' := Put(limit, s, k, v, expiry);
      && k in s'.values && s'.values[k] == s.values[k]
      && (if k !in s.clock.timers then k !in s'.clock.timers && s'.due == s.due
          else if expiry <= 0 then k in s'.clock.timers && s'.clock.timers[k] == s.clock.timers[k] && s'.due == s.due
          else if expiry < SECOND then s'.clock == s.clock && s'.due == s.due + multiset{k}
          else
            && k in s'.clock.timers && s'.due == s.due
            && W.Remaining(s'.clock, s'.clock.timers[k])
               == W.Steps(SECOND, expiry) + W.MoveError(s.clock, s.clock.timers[k], W.Steps(SECOND, expiry)))
  {
    TouchStored(limit, s, k);
    if k in s.clock.timers && expiry >= SECOND {
      assert W.TimerOk(s.clock.numSlots, s.clock.timers[k]);
      W.MoveClosedForm(s.clock, s.clock.timers[k], W.Steps(SECOND, expiry));
    }
  }

  /**
   A key that is Set survives the deletions that are due if and only if none is
   due for it: neither from a timer that fired before, nor because it had a timer
   and was Set again for less than a second.
   */
  lemma {:induction false} SetSurvivesIff(limit: int, s: Store, k: Key, v: Value, expiry: int)
    requires StoreOk(limit, s)
    ensures k in Settled(Put(limit, s, k, v, expiry)).values
      <==> k !in s.due && !(k in s.clock.timers && 0 < expiry < SECOND)
  {
    if k in s.values {
      ResetLifetime(limit, s, k, v, expiry);
    } else {
      assert k !in s.clock.timers.Keys;
      TouchOk(limit, s.(values := s.values[k := v]), k);
    }
  }

  /** A new cache: a key set for a second, a tick, and the key set again before its deletion: it is gone all the same. */
  lemma {:induction false} SetAgainLost(limit: int, e: Store, k: Key, v: Value, w: Value, expiry: int)
    requires e == EmptyStore()
    ensures var s := Tick(Put(limit, e, k, v, SECOND));
      && StoreOk(limit, s) && k in s.values && k !in s.clock.timers && k in s.due
      && k in Put(limit, s, k, w, expiry).values && k !in Expire(Put(limit, s, k, w, expiry), k).values
  {
    PutOk(limit, e, k, v, SECOND);
    FreshLifetime(limit, e, k, v, SECOND);
    var s1 := Put(limit, e, k, v, SECOND);
    TickExpires(limit, s1, k);
    TickOk(limit, s1);
    var s := Tick(s1);
    assert k in s1.clock.timers.Keys;
    ResetLifetime(limit, s, k, w, expiry);
  }

  /**
   The new lifetime is the one asked for if and only if the old slot and the new
   one lie on the same side of the hand, or the old slot is still ahead and the
   expiry fits one turn of the wheel.
   */
  lemma {:induction false} ResetExactIff(limit: int, s: Store, k: Key, v: Value, expiry: int)
    requires StoreOk(limit, s) && k in s.clock.timers && expiry >= SECOND
    ensures var s' := Put(limit, s, k, v, expiry);
      var hand, slot := s.clock.hand, s.clock.timers[k].pos;
      var target := (hand + expiry / SECOND) % s.clock.numSlots;
      && k in s'.clock.timers
      && (W.Remaining(s'.clock, s'.clock.timers[k]) == expiry / SECOND
          <==> ((slot <= hand <==> target <= hand) || (slot > hand && expiry / SECOND <= s.clock.numSlots)))
  {
    ResetLifetime(limit, s, k, v, expiry);
  }

  function TickTimes(s: Store, n: nat): (s': Store)
    requires s.clock.numSlots > 0
    ensures s'.clock == W.TickTimes(s.clock, n)
  {
    if n == 0 then s else Tick(TickTimes(s, n - 1))
  }

  /** Setting a key in a cache without timers, for 450 seconds, when the hand is at 140. */
  lemma {:induction false} SetAt140(limit: int, s: Store, k: Key, v: Value)
    requires StoreOk(limit, s) && k !in s.values && s.clock == W.Clock(300, 140, map[])
    ensures Put(limit, s, k, v, 450 * SECOND).clock == W.Clock(300, 140, map[k := W.Timer(v, 290, 1, 0)])
    ensures StoreOk(limit, Put(limit, s, k, v, 450 * SECOND))
  {
    PutOk(limit, s, k, v, 450 * SECOND);
    TouchOk(limit, s.(values := s.values[k := v]), k);
    assert (140 + 450) % 300 == 290 && (450 - 1) / 300 == 1 && W.Steps(SECOND, 450 * SECOND) == 450;
  }

  lemma {:induction false} Idle(limit: int, s: Store, n: nat)
    requires StoreOk(limit, s)
    ensures StoreOk(limit, TickTimes(s, n))
  {
    if n > 0 {
      Idle(limit, s, n - 1);
      TickOk(limit, TickTimes(s, n - 1));
    }
  }

  lemma {:induction false} NeverStored(s: Store, n: nat, k: Key)
    requires s.clock.numSlots > 0 && k !in s.values
    ensures k !in TickTimes(s, n).values
  {
    if n > 0 {
      NeverStored(s, n - 1, k);
    }
  }

  /** Without timers n seconds turn the hand, the first of them from the last slot to slot 0. */
  lemma {:induction false} HandAfter(c: W.Clock, n: nat)
    requires c == W.Clock(300, 299, map[]) && 0 < n < 300
    ensures W.TickTimes(c, n) == W.Clock(300, n - 1, map[])
  {
    var m: nat := n - 1;
    W.TicksAdd(c, 1, m);
    assert W.TickTimes(c, 1) == W.Tick(W.TickTimes(c, 0)) == W.Clock(300, 0, map[]);
    W.EmptyTicks(300, 0, m);
  }

  lemma {:induction false} ResetAt150(limit: int, s: Store, k: Key, v: Value)
    requires StoreOk(limit, s) && s.clock == W.Clock(300, 150, map[k := W.Timer(v, 290, 1, 0)])
    ensures k in s.values
    ensures var s' := Put(limit, s, k, v, 450 * SECOND);
      k in s'.clock.timers && W.Remaining(s'.clock, s'.clock.timers[k]) == 150
  {
    assert k in s.clock.timers.Keys;
    ResetLifetime(limit, s, k, v, 450 * SECOND);
    assert (150 + 450) % 300 == 0 && W.Steps(SECOND, 450 * SECOND) == 450;
  }

  /** A cache after n seconds and a Set for 450 seconds. */
  function SetAfter(limit: int, e: Store, n: nat, k: Key, v: Value): (s: Store)
    requires StoreOk(limit, e)
    ensures StoreOk(limit, s)
  {
    var s0 := TickTimes(e, n);
    Idle(limit, e, n);
    PutOk(limit, s0, k, v, 450 * SECOND);
    Put(limit, s0, k, v, 450 * SECOND)
  }

  lemma {:induction false} SetAfterTicks(limit: int, e: Store, n: nat, k: Key, v: Value)
    requires StoreOk(limit, e) && k !in e.values && e.clock == W.Clock(300, 299, map[]) && n == 141
    ensures SetAfter(limit, e, n, k, v).clock == W.Clock(300, 140, map[k := W.Timer(v, 290, 1, 0)])
  {
    var s0 := TickTimes(e, n);
    Idle(limit, e, n);
    NeverStored(e, n, k);
    HandAfter(e.clock, n);
    SetAt140(limit, s0, k, v);
  }

  /**
   With a constant expiry of 450 seconds: a key set in a new cache after 141
   seconds and set again ten seconds later has 150 seconds left, not 450.
   */
  lemma {:induction false} ResetDropsEarly(limit: int, e: Store, n: nat, k: Key, v: Value, m: nat)
    requires e == EmptyStore() && n == 141 && m == 10
    ensures var s := TickTimes(SetAfter(limit, e, n, k, v), m);
      && StoreOk(limit, s) && k in s.values
      && var s' := Put(limit, s, k, v, 450 * SECOND);
         k in s'.clock.timers && W.Remaining(s'.clock, s'.clock.timers[k]) == 150
  {
    var s := SetAfter(limit, e, n, k, v);
    SetAfterTicks(limit, e, n, k, v);
    Idle(limit, s, m);
    W.QuietTicks(300, 140, k, W.Timer(v, 290, 1, 0), m);
    ResetAt150(limit, TickTimes(s, m), k, v);
  }

  /** No call sets or deletes the key; reading it, and a deletion that is due, are allowed. */
  predicate Leaves(op: Op, k: Key)
  {
    (op.OpPut? || op.OpDelete?) ==> op.key != k
  }

  function Ticks(ops: seq<Op>): (n: nat)
    decreases |ops|
  {
    if ops == [] then 0 else (if ops[0].OpTick? then 1 else 0) + Ticks(ops[1..])
  }

  /** Touching another key leaves a key's timer alone unless it evicts the key. */
  lemma {:induction false} TouchLeavesTimer(limit: int, s: Store, x: Key, k: Key)
    requires k in s.clock.timers
    ensures var s' := Touch(limit, s, x);
      && s'.clock.hand == s.clock.hand && s'.clock.numSlots == s.clock.numSlots
      && (k in s'.values ==> k in s'.clock.timers && s'.clock.timers[k] == s.clock.timers[k])
      && (limit <= 0 && k in s.values ==> k in s'.values)
  {
  }

  /** So do the timer operations on another key. */
  lemma {:induction false} TimerOpLeavesTimer(s: Store, op: Op, loaded: bool, k: Key)
    requires W.ClockOk(s.clock) && op.OpPut? && op.key != k
    ensures var s' := if loaded then MoveTimer(s, op.key, op.expiry) else SetTimer(s, op.key, op.value, op.expiry);
      && s'.clock.hand == s.clock.hand && s'.clock.numSlots == s.clock.numSlots
      && (k in s'.values <==> k in s.values) && (k in s'.due <==> k in s.due)
      && (k in s.clock.timers ==> k in s'.clock.timers && s'.clock.timers[k] == s.clock.timers[k])
  {
    if op.expiry > 0 {
      var steps := W.Steps(SECOND, op.expiry);
      W.OthersUntouched(s.clock, if loaded then W.OpMove(op.key, steps) else W.OpSet(op.key, op.value, steps), k);
    }
  }

  /** From s to s' the key keeps its timer, with as many ticks left, unless it is evicted; no deletion becomes due. */
  ghost predicate TimerKept(limit: int, s: Store, s': Store, k: Key)
    requires W.ClockOk(s.clock) && k in s.clock.timers
  {
    && s'.clock.hand == s.clock.hand && s'.clock.numSlots == s.clock.numSlots
    && (k in s'.values ==> k in s'.clock.timers && s'.clock.timers[k] == s.clock.timers[k])
    && (limit <= 0 ==> k in s'.values) && k !in s'.due
  }

  lemma {:induction false} PutLeavesTimer(limit: int, s: Store, op: Op, k: Key)
    requires StoreOk(limit, s) && k in s.clock.timers && k !in s.due && op.OpPut? && op.key != k
    ensures TimerKept(limit, s, Put(limit, s, op.key, op.value, op.expiry), k)
  {
    var s1 := if op.key in s.values then s else s.(values := s.values[op.key := op.value]);
    TouchLeavesTimer(limit, s1, op.key, k);
    TouchOk(limit, s1, op.key);
    TimerOpLeavesTimer(Touch(limit, s1, op.key), op, op.key in s.values, k);
  }

  lemma {:induction false} DeleteLeavesTimer(limit: int, s: Store, x: Key, k: Key)
    requires StoreOk(limit, s) && k in s.clock.timers && k !in s.due && x != k
    ensures TimerKept(limit, s, Delete(s, x), k) && TimerKept(limit, s, Expire(s, x), k)
  {
    assert k in s.clock.timers.Keys;
  }

  lemma {:induction false} OthersLeaveTimer(limit: int, s: Store, op: Op, k: Key)
    requires StoreOk(limit, s) && k in s.clock.timers && k !in s.due && Leaves(op, k) && !op.OpTick?
    ensures TimerKept(limit, s, Do(limit, s, op), k)
  {
    match op {
      case OpPut(x, v, expiry) => PutLeavesTimer(limit, s, op, k);
      case OpRead(x) => TouchLeavesTimer(limit, s, x, k);
      case OpDelete(x) => DeleteLeavesTimer(limit, s, x, k);
      case OpExpire(x) =>
        if x != k {
          DeleteLeavesTimer(limit, s, x, k);
        }
    }
  }

  lemma {:induction false} AbsentStep(limit: int, s: Store, op: Op, k: Key)
    requires StoreOk(limit, s) && k !in s.values && Leaves(op, k)
    ensures k !in Do(limit, s, op).values
  {
  }

  lemma {:induction false} AbsentStaysAbsent(limit: int, s: Store, ops: seq<Op>, k: Key)
    requires StoreOk(limit, s) && k !in s.values && forall i :: 0 <= i < |ops| ==> Leaves(ops[i], k)
    ensures k !in DoAll(limit, s, ops).values
    decreases |ops|
  {
    if ops != [] {
      DoKeepsOk(limit, s, ops[0]);
      AbsentStep(limit, s, ops[0], k);
      AbsentStaysAbsent(limit, Do(limit, s, ops[0]), ops[1..], k);
    }
  }

  lemma {:induction false} PutKeepsDue(limit: int, s: Store, op: Op, k: Key)
    requires StoreOk(limit, s) && k in s.due && k !in s.clock.timers && op.OpPut? && op.key != k
    ensures var s' := Put(limit, s, op.key, op.value, op.expiry);
      k in s'.due && k !in s'.clock.timers
  {
    var s1 := if op.key in s.values then s else s.(values := s.values[op.key := op.value]);
    assert Touch(limit, s1, op.key).due == s.due && k !in Touch(limit, s1, op.key).clock.timers;
  }

  /** Operations that leave a key without a timer alone keep its deletion due as long as it is stored. */
  lemma {:induction false} DueStep(limit: int, s: Store, op: Op, k: Key)
    requires StoreOk(limit, s) && k in s.due && k !in s.clock.timers && Leaves(op, k)
    ensures var s' := Do(limit, s, op);
      k in s'.values ==> k in s'.due && k !in s'.clock.timers
  {
    if op.OpPut? {
      PutKeepsDue(limit, s, op, k);
    }
  }

  lemma {:induction false} DueUntilGone(limit: int, s: Store, ops: seq<Op>, k: Key)
    requires StoreOk(limit, s) && k in s.due && k !in s.clock.timers && forall i :: 0 <= i < |ops| ==> Leaves(ops[i], k)
    ensures k in DoAll(limit, s, ops).values ==> k in DoAll(limit, s, ops).due
    decreases |ops|
  {
    if ops != [] {
      var s' := Do(limit, s, ops[0]);
      DoKeepsOk(limit, s, ops[0]);
      DueStep(limit, s, ops[0], k);
      if k in s'.values {
        DueUntilGone(limit, s', ops[1..], k);
      } else {
        AbsentStaysAbsent(limit, s', ops[1..], k);
      }
    }
  }

  /**
   Over any run of calls that neither set nor delete the key, from its remaining
   ticks on it is gone or its deletion is due; in a cache without a limit it is
   there, with no deletion due, exactly until then.
   */
  lemma {:induction false} LivesUntilExpiry(limit: int, s: Store, ops: seq<Op>, k: Key)
    requires StoreOk(limit, s) && k in s.clock.timers && k !in s.due && forall i :: 0 <= i < |ops| ==> Leaves(ops[i], k)
    ensures var s', left := DoAll(limit, s, ops), W.Remaining(s.clock, s.clock.timers[k]);
      && (k in Settled(s').values ==> Ticks(ops) < left)
      && (limit <= 0 && Ticks(ops) < left ==> k in Settled(s').values)
    decreases |ops|
  {
    if ops == [] {
      W.RemainingPositive(s.clock, k);
    } else {
      var s' := Do(limit, s, ops[0]);
      DoKeepsOk(limit, s, ops[0]);
      if ops[0].OpTick? {
        TickExpires(limit, s, k);
      } else {
        OthersLeaveTimer(limit, s, ops[0], k);
      }
      if k !in s'.values {
        AbsentStaysAbsent(limit, s', ops[1..], k);
      } else if k in s'.clock.timers {
        LivesUntilExpiry(limit, s', ops[1..], k);
      } else {
        DueUntilGone(limit, s', ops[1..], k);
      }
    }
  }

  lemma {:induction false} DeleteNone(s: Store)
    ensures DeleteMany(s, {}) == s
  {
    DropNothing(s.order, {});
    assert s.values - {} == s.values;
    assert s.clock.timers - {} == s.clock.timers;
  }

  lemma {:induction false} DeleteOneMore(s: Store, gone: set<Key>, k: Key)
    ensures Delete(DeleteMany(s, gone), k) == DeleteMany(s, gone + {k})
  {
    DropTwice(s.order, gone, {k});
    assert s.values - gone - {k} == s.values - (gone + {k});
    assert s.clock.timers - gone - {k} == s.clock.timers - (gone + {k});
  }

  /** The value of a deleted key may be gone already. */
  lemma {:induction false} DeleteAgain(s: Store, k: Key)
    ensures Delete(s.(values := s.values - {k}), k) == Delete(s, k)
    ensures W.Remove(Delete(s, k).clock, k) == Delete(s, k).clock
    ensures k !in s.order ==> Drop(s.order, {k}) == s.order
  {
    assert s.values - {k} - {k} == s.values - {k};
    assert s.clock.timers - {k} - {k} == s.clock.timers - {k};
    if k !in s.order {
      DropNothing(s.order, {k});
    }
  }

  /** The due deletions of the listed keys, one after the other. */
  function ExpireEach(s: Store, ks: seq<Key>): (s': Store)
  {
    if ks == [] then s else Expire(ExpireEach(s, ks[..|ks| - 1]), ks[|ks| - 1])
  }

  lemma {:induction false} ExpireOneMore(s: Store, gone: set<Key>, due: multiset<Key>, k: Key)
    requires k in due
    ensures Expire(DeleteMany(s, gone).(due := due), k) == DeleteMany(s, gone + {k}).(due := due - multiset{k})
  {
    DeleteOneMore(s, gone, k);
  }

  lemma {:induction false} LastMember(ks: seq<Key>, due: multiset<Key>)
    requires ks != [] && multiset(ks) <= due
    ensures var before, k := ks[..|ks| - 1], ks[|ks| - 1];
      && Members(ks) == Members(before) + {k} && multiset(before) <= due && k in due - multiset(before)
      && due - multiset(ks) == due - multiset(before) - multiset{k}
  {
    var before, k := ks[..|ks| - 1], ks[|ks| - 1];
    assert ks == before + [k];
    assert multiset(ks)[k] == multiset(before)[k] + 1;
  }

  lemma {:induction false} ExpireEachIsMany(s: Store, ks: seq<Key>)
    requires multiset(ks) <= s.due
    ensures ExpireEach(s, ks) == DeleteMany(s, Members(ks)).(due := s.due - multiset(ks))
  {
    if ks == [] {
      DeleteNone(s);
      assert Members(ks) == {};
    } else {
      var before, k := ks[..|ks| - 1], ks[|ks| - 1];
      LastMember(ks, s.due);
      ExpireEachIsMany(s, before);
      ExpireOneMore(s, Members(before), s.due - multiset(before), k);
    }
  }

  /** In whatever order the goroutines make the due deletions, the outcome is the same. */
  lemma {:induction false} SettlesInAnyOrder(s: Store, ks: seq<Key>)
    requires multiset(ks) == s.due
    ensures ExpireEach(s, ks) == Settled(s)
  {
    ExpireEachIsMany(s, ks);
    assert (set k | k in s.due) == Members(ks);
    assert s.due - multiset(ks) == multiset{};
  }

  /** The keys of the first n tasks. */
  function KeysOf(tasks: seq<(Key, Value)>, n: nat): (ks: multiset<Key>)
    requires n <= |tasks|
  {
    if n == 0 then multiset{} else KeysOf(tasks, n - 1) + multiset{tasks[n - 1].0}
  }

  lemma {:induction false} KeysOfCount(tasks: seq<(Key, Value)>, n: nat, k: Key)
    requires n <= |tasks| && forall i, j :: 0 <= i < j < |tasks| ==> tasks[i].0 != tasks[j].0
    ensures KeysOf(tasks, n)[k] == if exists i :: 0 <= i < n && tasks[i].0 == k then 1 else 0
  {
    if n > 0 {
      KeysOfCount(tasks, n - 1, k);
    }
  }

  /** The tasks a tick starts are those of the keys that expire, each once. */
  lemma {:induction false} TasksAreExpired(s: Store, tasks: seq<(Key, Value)>)
    requires W.ClockOk(s.clock) && ExactlyFired(s.clock, tasks)
    ensures KeysOf(tasks, |tasks|) == multiset(Expired(s))
  {
    forall k ensures KeysOf(tasks, |tasks|)[k] == multiset(Expired(s))[k] {
      KeysOfCount(tasks, |tasks|, k);
      if k in Expired(s) {
        assert (k, s.clock.timers[k].value) in tasks;
      }
    }
  }

  // --------------------------------------------------------------- the object

  /** A Cache with its keyLru; a limit of zero or less means the empty LRU. */
  class Cache {
    const limit: int
    var data: map<Key, Value>
    var evicts: seq<Key>
    var elements: set<Key>
    const wheel: TimingWheel
    /** The keys that goroutines already started will delete. */
    var due: multiset<Key>

    ghost function View(): (s: Store)
      reads this, wheel, wheel.timers
      requires wheel.Valid()
    {
      Store(data, evicts, wheel.Clock(), due)
    }

    /** The wheel is sound and the element index matches the recency list. */
    ghost predicate Linked()
      reads this, wheel, wheel.timers
    {
      && wheel.Valid() && wheel.interval == SECOND
      && Distinct(evicts) && elements == Members(evicts)
      && (limit <= 0 ==> evicts == [])
    }

    ghost predicate Valid()
      reads this, wheel, wheel.timers
    {
      Linked() && StoreOk(limit, View())
    }

    constructor (limit: int)
      ensures Valid() && this.limit == limit && View() == EmptyStore()
      ensures fresh(wheel) && fresh(wheel.timers)
    {
      this.limit := limit;
      data := map[];
      evicts := [];
      elements := {};
      due := multiset{};
      wheel := new TimingWheel(SECOND, SLOTS);
    }

    method OnEvict(key: Key)
      requires Linked()
      modifies this`data, wheel, wheel.timers
      ensures Linked()
      ensures View() == old(View()).(values := old(data) - {key}, clock := W.Remove(old(View()).clock, key))
    {
      data := data - {key};
      wheel.RemoveTask(key);
    }

    /** keyLru.removeOldest: the last key leaves the list and the element index, then its value and timer go. */
    method RemoveOldest()
      requires Linked() && evicts != []
      modifies this, wheel, wheel.timers
      ensures Linked()
      ensures var s, n := old(View()), |old(evicts)| - 1;
        View() == Store(s.values - {s.order[n]}, s.order[..n], W.Remove(s.clock, s.order[n]), s.due)
    {
      LastOut(evicts);
      var oldest := evicts[|evicts| - 1];
      evicts := evicts[..|evicts| - 1];
      elements := elements - {oldest};
      OnEvict(oldest);
    }

    /** keyLru.add */
    method LruAdd(key: Key)
      requires Linked()
      modifies this, wheel, wheel.timers
      ensures Linked() && View() == Touch(limit, old(View()), key)
    {
      if limit <= 0 {
        return;
      }
      if key in elements {
        DropDistinct(evicts, {key});
        evicts := [key] + Drop(evicts, {key});
        return;
      }
      evicts := [key] + evicts;
      elements := elements + {key};
      if |evicts| > limit {
        RemoveOldest();
      }
    }

    /** keyLru.remove */
    method LruRemove(key: Key)
      requires Linked()
      modifies this, wheel, wheel.timers
      ensures Linked()
      ensures View() == if key in old(evicts) then Delete(old(View()), key) else old(View())
    {
      if key in elements {
        DropDistinct(evicts, {key});
        evicts := Drop(evicts, {key});
        elements := elements - {key};
        OnEvict(key);
      }
    }

    method Del(key: Key)
      requires Linked()
      modifies this, wheel, wheel.timers
      ensures Linked() && View() == Delete(old(View()), key)
    {
      DeleteAgain(View(), key);
      data := data - {key};
      LruRemove(key);
      wheel.RemoveTask(key);
    }

    method Get(key: Key) returns (value: Option<Value>)
      requires Valid()
      modifies this, wheel, wheel.timers
      ensures Valid() && View() == Read(limit, old(View()), key)
      ensures value == if key in old(data) then Some(old(data)[key]) else None
    {
      value := None;
      if key in data {
        TouchOk(limit, View(), key);
        value := Some(data[key]);
        LruAdd(key);
      }
    }

    /** The wheel's moveTask, whose early execution is left to a goroutine. */
    method MoveExpiry(key: Key, expiry: int)
      requires Linked() && expiry > 0
      modifies this`due, wheel, wheel.timers
      ensures Linked() && View() == MoveTimer(old(View()), key, expiry)
    {
      var ran := wheel.MoveTask(key, expiry);
      if ran.Some? {
        due := due + multiset{key};
      }
    }

    method SetWithExpire(key: Key, value: Value, expiry: int)
      requires Valid()
      modifies this, wheel, wheel.timers
      ensures Valid() && View() == Put(limit, old(View()), key, value, expiry)
    {
      PutOk(limit, View(), key, value, expiry);
      var loaded := key in data;
      if !loaded {
        data := data[key := value];
      }
      LruAdd(key);
      if expiry <= 0 {
        return;
      }
      if loaded {
        MoveExpiry(key, expiry);
      } else {
        wheel.SetTask(key, value, expiry);
      }
    }

    /** runTasks hands the tasks to a goroutine. */
    method RunTasks(tasks: seq<(Key, Value)>)
      requires Linked()
      modifies this`due
      ensures Linked() && View() == old(View()).(due := old(due) + KeysOf(tasks, |tasks|))
    {
      var i := 0;
      while i < |tasks|
        invariant 0 <= i <= |tasks|
        invariant due == old(due) + KeysOf(tasks, i)
      {
        due := due + multiset{tasks[i].0};
        i := i + 1;
      }
    }

    /** What a goroutine does when it comes to the task of a key. */
    method DeleteExpired(key: Key)
      requires Valid()
      modifies this, wheel, wheel.timers
      ensures Valid() && View() == Expire(old(View()), key)
    {
      DeleteOk(limit, View(), key);
      if key in due {
        Del(key);
        due := due - multiset{key};
      }
    }

    /** One tick of the wheel: the deletions it causes are left to a goroutine. */
    method OnTick()
      requires Valid()
      modifies this, wheel, wheel.timers
      ensures Valid() && View() == Tick(old(View()))
    {
      ghost var s := View();
      TickOk(limit, s);
      var tasks := wheel.OnTick();
      TasksAreExpired(s, tasks);
      RunTasks(tasks);
    }
  }
}
