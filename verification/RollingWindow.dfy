/**
 The rolling window of infra/collection/rollingwindow.go: a ring of buckets,
 one per time interval, advanced lazily when something is added.

 The reference is the full log of timestamped events.  The ring agrees with the
 log: the bucket of every interval still covered holds exactly the events of
 that interval, so Reduce sees the log filtered to the last `size` intervals.
 An addition reads the clock twice; when an interval ends between the two
 readings, everything added before is filed that much later from then on.
 */
module RollingWindows {
  import opened Arithmetic

  /** An addition: when, in which interval since the window's start it is filed, and what. */
  datatype Event<V> = Event(time: int, slot: int, value: V)

  /** A bucket type: its reset value and how it takes in a value. */
  datatype Algebra<!V, !B> = Algebra(empty: B, add: (B, V) -> B)

  /** The bucket after the given additions since its last reset. */
  function Fold<V, B>(alg: Algebra<V, B>, values: seq<V>): (b: B)
  {
    if values == [] then alg.empty
    else alg.add(Fold(alg, values[..|values| - 1]), values[|values| - 1])
  }

  lemma {:induction false} FoldAppend<V, B>(alg: Algebra<V, B>, values: seq<V>, v: V)
    ensures Fold(alg, values + [v]) == alg.add(Fold(alg, values), v)
  {
    assert (values + [v])[..|values|] == values;
  }

  /** The number of the interval, counted from the window's start, that a time falls into. */
  function Slot(start: int, interval: int, time: int): (i: int)
    requires interval > 0
  {
    (time - start) / interval
  }

  /** Among the first n events, the values of those whose interval is in [lo, hi), in log order. */
  ghost function BetweenTo<V>(log: seq<Event<V>>, n: nat, lo: int, hi: int): (r: seq<V>)
    requires n <= |log|
  {
    if n == 0 then []
    else BetweenTo(log, n - 1, lo, hi) + if lo <= log[n - 1].slot < hi then [log[n - 1].value] else []
  }

  ghost function Between<V>(log: seq<Event<V>>, lo: int, hi: int): (r: seq<V>)
  {
    BetweenTo(log, |log|, lo, hi)
  }

  /** Intervals never go back. */
  ghost predicate InOrder<V>(log: seq<Event<V>>)
  {
    forall i, j :: 0 <= i <= j < |log| ==> log[i].slot <= log[j].slot
  }

  lemma {:induction false} BetweenPrefix<V>(log: seq<Event<V>>, e: Event<V>, n: nat, lo: int, hi: int)
    requires n <= |log|
    ensures BetweenTo(log + [e], n, lo, hi) == BetweenTo(log, n, lo, hi)
  {
    if n > 0 {
      BetweenPrefix(log, e, n - 1, lo, hi);
    }
  }

  lemma {:induction false} BetweenAppend<V>(log: seq<Event<V>>, e: Event<V>, lo: int, hi: int)
    ensures Between(log + [e], lo, hi) == Between(log, lo, hi) + if lo <= e.slot < hi then [e.value] else []
  {
    BetweenPrefix(log, e, |log|, lo, hi);
  }

  /** No event falls into an interval after all of them. */
  lemma {:induction false} BetweenAfter<V>(log: seq<Event<V>>, n: nat, lo: int, hi: int)
    requires n <= |log| && forall i :: 0 <= i < n ==> log[i].slot < lo
    ensures BetweenTo(log, n, lo, hi) == []
  {
    if n > 0 {
      BetweenAfter(log, n - 1, lo, hi);
    }
  }

  lemma {:induction false} BetweenEmpty<V>(log: seq<Event<V>>, n: nat, lo: int)
    requires n <= |log|
    ensures BetweenTo(log, n, lo, lo) == []
  {
    if n > 0 {
      BetweenEmpty(log, n - 1, lo);
    }
  }

  /** The events of adjacent ranges of intervals come one after the other. */
  lemma {:induction false} BetweenSplit<V>(log: seq<Event<V>>, n: nat, lo: int, mid: int, hi: int)
    requires n <= |log| && InOrder(log) && lo <= mid <= hi
    ensures BetweenTo(log, n, lo, hi) == BetweenTo(log, n, lo, mid) + BetweenTo(log, n, mid, hi)
  {
    if n > 0 {
      BetweenSplit(log, n - 1, lo, mid, hi);
      if lo <= log[n - 1].slot < mid {
        BetweenAfter(log, n - 1, mid, hi);
      }
    }
  }

  // ------------------------------------------------------- events filed later

  /** The log with every event filed k intervals later. */
  ghost function Shifted<V>(log: seq<Event<V>>, k: int): (r: seq<Event<V>>)
    ensures |r| == |log| && forall i :: 0 <= i < |log| ==> r[i] == log[i].(slot := log[i].slot + k)
  {
    seq(|log|, i requires 0 <= i < |log| => log[i].(slot := log[i].slot + k))
  }

  /** Nothing changes exactly when nothing is shifted. */
  lemma {:induction false} ShiftedSame<V>(log: seq<Event<V>>, k: int)
    ensures Shifted(log, k) == log <==> k == 0 || log == []
  {
    if log != [] && k != 0 {
      assert Shifted(log, k)[0] != log[0];
    }
  }

  lemma {:induction false} BetweenShifted<V>(log: seq<Event<V>>, k: int, n: nat, lo: int, hi: int)
    requires n <= |log|
    ensures BetweenTo(Shifted(log, k), n, lo + k, hi + k) == BetweenTo(log, n, lo, hi)
  {
    if n > 0 {
      BetweenShifted(log, k, n - 1, lo, hi);
    }
  }

  // ------------------------------------------------------------ ring positions

  /** The position of the bucket that is `age` intervals behind the current one. */
  function Position(size: int, offset: int, age: int): (p: int)
  {
    if age <= offset then offset - age else offset - age + size
  }

  /** How many positions after the current bucket's successor a position is. */
  function Ahead(size: int, offset: int, p: int): (d: int)
  {
    if p > offset then p - offset - 1 else p - offset - 1 + size
  }

  /** One turn of the ring at most: x modulo the size. */
  function Wrap(size: int, x: int): (p: int)
  {
    if x < size then x else x - size
  }

  lemma {:induction false} WrapAround(x: int, size: int)
    requires 0 <= x < 2 * size
    ensures x % size == Wrap(size, x)
  {
    if x < size {
      DivModUnique(x, size, 0, x);
    } else {
      DivModUnique(x, size, 1, x - size);
    }
  }

  /** Advancing by `span`: the bucket `age` behind the new offset is a reset one or an old one. */
  lemma {:induction false} Advanced(size: int, offset: int, span: int, age: int)
    requires 0 <= offset < size && 0 <= span <= size && 0 <= age < size
    ensures var p := Position(size, Wrap(size, offset + span), age);
      && 0 <= p < size
      && (age < span <==> Ahead(size, offset, p) < span)
      && (age >= span ==> p == Position(size, offset, age - span))
  {
  }

  /** The i-th position a reduction from behind the span visits. */
  lemma {:induction false} ReducePosition(size: int, offset: int, span: int, i: int)
    requires 0 <= offset < size && 0 <= span < size && 0 <= i < size - span
    ensures Wrap(size, Wrap(size, offset + span + 1) + i) == Position(size, offset, size - span - 1 - i)
  {
  }

  /** Time since an interval boundary counts the same intervals as time since the start. */
  lemma {:induction false} SinceLast(start: int, interval: int, last: int, now: int)
    requires interval > 0 && start + interval * last <= now
    ensures (now - (start + interval * last)) / interval == Slot(start, interval, now) - last
    ensures (now - (start + interval * last)) / interval >= 0
    ensures now - (now - (start + interval * last)) % interval == start + interval * Slot(start, interval, now)
  {
    var q := Slot(start, interval, now) - last;
    var r := (now - start) % interval;
    var elapsed := now - (start + interval * last);
    assert interval * (last + q) == interval * last + interval * q;
    DivModUnique(elapsed, interval, q, r);
  }

  lemma {:induction false} SlotMonotone(start: int, interval: int, s: int, t: int)
    requires interval > 0 && s <= t
    ensures Slot(start, interval, s) <= Slot(start, interval, t)
  {
    var a, b := Slot(start, interval, s), Slot(start, interval, t);
    if b < a {
      LargeMultiple(interval, a - b);
    }
  }

  /** An interval is the time from one multiple of its length after the start to the next. */
  lemma {:induction false} SlotExactly(start: int, interval: int, time: int, i: int)
    requires interval > 0
    ensures Slot(start, interval, time) == i <==> start + interval * i <= time < start + interval * (i + 1)
  {
    var s := Slot(start, interval, time);
    assert time - start == interval * s + (time - start) % interval;
    if start + interval * i <= time < start + interval * (i + 1) {
      DivModUnique(time - start, interval, i, time - start - interval * i);
    }
  }

  /** An interval has begun by any time in it. */
  lemma {:induction false} BoundaryReached(start: int, interval: int, time: int)
    requires interval > 0
    ensures start + interval * Slot(start, interval, time) <= time
  {
  }

  // --------------------------------------------------- the ring against the log

  /** The bucket of an interval, computed from the log. */
  ghost function BucketOf<V, B>(alg: Algebra<V, B>, log: seq<Event<V>>, i: int): (b: B)
  {
    Fold(alg, Between(log, i, i + 1))
  }

  /** The ring holds the buckets of the last |ring| intervals, `last` at the offset. */
  ghost predicate Agrees<V, B>(alg: Algebra<V, B>, ring: seq<B>, offset: int, last: int, log: seq<Event<V>>)
  {
    && 0 <= offset < |ring| && InOrder(log) && (forall i :: 0 <= i < |log| ==> log[i].slot <= last)
    && (forall age :: 0 <= age < |ring| ==> ring[Position(|ring|, offset, age)] == BucketOf(alg, log, last - age))
  }

  /** Resetting the skipped buckets brings the ring to a later interval. */
  lemma {:induction false} AdvanceAgrees<V, B>(alg: Algebra<V, B>, ring: seq<B>, offset: int, last: int,
                                               log: seq<Event<V>>, ring': seq<B>, span: int, slot: int)
    requires Agrees(alg, ring, offset, last, log) && |ring'| == |ring|
    requires slot >= last && span == (if slot - last < |ring| then slot - last else |ring|)
    requires forall p :: 0 <= p < |ring| ==>
      ring'[p] == if Ahead(|ring|, offset, p) < span then alg.empty else ring[p]
    ensures Agrees(alg, ring', Wrap(|ring|, offset + span), slot, log)
  {
    var size := |ring|;
    var offset' := Wrap(size, offset + span);
    forall age | 0 <= age < size
      ensures ring'[Position(size, offset', age)] == BucketOf(alg, log, slot - age)
    {
      Advanced(size, offset, span, age);
      if age < span {
        BetweenAfter(log, |log|, slot - age, slot - age + 1);
      }
    }
  }

  /** A ring whose current interval is said to be k later agrees with the log filed k later. */
  lemma {:induction false} ShiftAgrees<V, B>(alg: Algebra<V, B>, ring: seq<B>, offset: int, last: int, log: seq<Event<V>>, k: int)
    requires Agrees(alg, ring, offset, last, log)
    ensures Agrees(alg, ring, offset, last + k, Shifted(log, k))
  {
    var log' := Shifted(log, k);
    forall age | 0 <= age < |ring|
      ensures ring[Position(|ring|, offset, age)] == BucketOf(alg, log', last + k - age)
    {
      BetweenShifted(log, k, |log|, last - age, last - age + 1);
      assert last + k - age == last - age + k && last + k - age + 1 == last - age + 1 + k;
    }
  }

  /** Adding to the current bucket is adding to the log. */
  lemma {:induction false} AddAgrees<V, B>(alg: Algebra<V, B>, ring: seq<B>, offset: int, last: int,
                                           log: seq<Event<V>>, e: Event<V>)
    requires Agrees(alg, ring, offset, last, log) && e.slot == last
    ensures Agrees(alg, ring[offset := alg.add(ring[offset], e.value)], offset, last, log + [e])
  {
    var size := |ring|;
    var ring' := ring[offset := alg.add(ring[offset], e.value)];
    forall age | 0 <= age < size
      ensures ring'[Position(size, offset, age)] == BucketOf(alg, log + [e], last - age)
    {
      BetweenAppend(log, e, last - age, last - age + 1);
      if age == 0 {
        FoldAppend(alg, Between(log, last, last + 1), e.value);
      } else {
        assert Between(log + [e], last - age, last - age + 1) == Between(log, last - age, last - age + 1);
      }
    }
  }

  /** The bucket visited i-th is that of the i-th interval of the window. */
  lemma {:induction false} VisitAgrees<V, B>(alg: Algebra<V, B>, ring: seq<B>, offset: int, last: int,
                                             log: seq<Event<V>>, span: int, i: int)
    requires Agrees(alg, ring, offset, last, log) && 0 <= span < |ring| && 0 <= i < |ring| - span
    ensures var p := Wrap(|ring|, Wrap(|ring|, offset + span + 1) + i);
      0 <= p < |ring| && ring[p] == BucketOf(alg, log, last + span - |ring| + 1 + i)
  {
    ReducePosition(|ring|, offset, span, i);
  }

  /** Intervals after the last addition contribute no events to a window. */
  lemma {:induction false} WindowCovered<V>(log: seq<Event<V>>, last: int, first: int, mid: int, hi: int)
    requires InOrder(log) && (forall i :: 0 <= i < |log| ==> log[i].slot <= last)
    requires first <= mid <= hi && (mid == hi || last < mid)
    ensures Between(log, first, mid) == Between(log, first, hi)
  {
    if mid < hi {
      BetweenSplit(log, |log|, first, mid, hi);
      BetweenAfter(log, |log|, mid, hi);
    }
  }

  /** What a reduction over `count` buckets from behind the span sees. */
  ghost predicate Seen<V, B>(alg: Algebra<V, B>, log: seq<Event<V>>, first: int, hi: int, visited: seq<B>)
  {
    && (forall i :: 0 <= i < |visited| ==> visited[i] == BucketOf(alg, log, first + i))
    && Between(log, first, first + |visited|) == Between(log, first, hi)
  }

  lemma {:induction false} ReduceAgrees<V, B>(alg: Algebra<V, B>, ring: seq<B>, offset: int, last: int,
                                              log: seq<Event<V>>, slot: int, hi: int, visited: seq<B>)
    requires Agrees(alg, ring, offset, last, log) && last <= slot
    requires slot - |ring| + 1 + |visited| <= hi && |visited| <= |ring|
    requires slot - |ring| + 1 + |visited| == hi || last < slot - |ring| + 1 + |visited|
    requires var span := if slot - last < |ring| then slot - last else |ring|;
      && |visited| <= |ring| - span
      && forall i :: 0 <= i < |visited| ==> visited[i] == ring[Wrap(|ring|, Wrap(|ring|, offset + span + 1) + i)]
    ensures Seen(alg, log, slot - |ring| + 1, hi, visited)
  {
    var first := slot - |ring| + 1;
    forall i | 0 <= i < |visited| ensures visited[i] == BucketOf(alg, log, first + i) {
      VisitAgrees(alg, ring, offset, last, log, slot - last, i);
    }
    WindowCovered(log, last, first, first + |visited|, hi);
  }

  // --------------------------------------------------------------- the object

  class RollingWindow<V, B> {
    const size: int
    const interval: int
    const ignoreCurrent: bool
    const alg: Algebra<V, B>
    const buckets: array<B>
    var offset: int
    var lastTime: int
    ghost const start: int
    ghost var last: int           // the interval that begins at lastTime
    ghost var log: seq<Event<V>>  // everything ever added

    ghost predicate Shape()
      reads this
    {
      && size >= 1 && interval > 0 && buckets.Length == size && 0 <= offset < size
      && lastTime == start + interval * last
    }

    /** The clock has reached `now`: every event was logged by then, and none is filed before its interval. */
    ghost predicate LoggedBy(now: int)
      reads this
      requires interval > 0
    {
      && lastTime <= now && start <= now
      && forall i :: 0 <= i < |log| ==>
           start <= log[i].time <= now && log[i].slot >= Slot(start, interval, log[i].time)
    }

    /** Every event is filed in its own interval. */
    ghost predicate OnTime()
      reads this
      requires interval > 0
    {
      forall i :: 0 <= i < |log| ==> log[i].slot == Slot(start, interval, log[i].time)
    }

    /** By how many intervals an addition with these clock readings makes everything before it look younger. */
    ghost function Skew(first: int, second: int): (k: int)
      reads this
      requires interval > 0
    {
      if Slot(start, interval, first) == last then 0 else Slot(start, interval, second) - Slot(start, interval, first)
    }

    /** When an addition with these readings takes place: the second reading is taken only in a new interval. */
    ghost function AddTime(first: int, second: int): (t: int)
      reads this
      requires interval > 0
    {
      if Slot(start, interval, first) == last then first else second
    }

    ghost predicate Valid()
      reads this, buckets
    {
      Shape() && Agrees(alg, buckets[..], offset, last, log)
    }

    constructor (alg: Algebra<V, B>, size: int, interval: int, ignoreCurrent: bool, now: int)
      requires size >= 1 && interval > 0
      ensures Valid() && log == [] && start == now && fresh(buckets) && LoggedBy(now) && OnTime()
      ensures this.size == size && this.interval == interval && this.ignoreCurrent == ignoreCurrent && this.alg == alg
    {
      this.alg := alg;
      this.size := size;
      this.interval := interval;
      this.ignoreCurrent := ignoreCurrent;
      buckets := new B[size](_ => alg.empty);
      offset := 0;
      lastTime := now;
      start := now;
      last := 0;
      log := [];
    }

    /** Whole intervals since lastTime, capped at the size. */
    method Span(now: int) returns (span: int)
      requires Shape() && lastTime <= now
      ensures span == var q := Slot(start, interval, now) - last; if q < size then q else size
      ensures Slot(start, interval, now) >= last
    {
      SinceLast(start, interval, last, now);
      var elapsed := (now - lastTime) / interval;
      if 0 <= elapsed < size {
        return elapsed;
      }
      return size;
    }

    /** The reset loop of updateOffset. */
    method ResetAhead(span: int)
      requires Shape() && 0 <= span <= size
      modifies buckets
      ensures forall p :: 0 <= p < size ==>
        buckets[p] == if Ahead(size, offset, p) < span then alg.empty else old(buckets[p])
    {
      var i := 0;
      while i < span
        invariant 0 <= i <= span
        invariant forall p :: 0 <= p < size ==>
          buckets[p] == if Ahead(size, offset, p) < i then alg.empty else old(buckets[p])
      {
        WrapAround(offset + i + 1, size);
        buckets[(offset + i + 1) % size] := alg.empty;
        i := i + 1;
      }
    }

    /**
     updateOffset: the first clock reading says how many buckets to reset, the
     second one where the current interval starts.
     */
    method UpdateOffset(first: int, second: int)
      requires Valid() && LoggedBy(first) && first <= second
      modifies this, buckets
      ensures Valid() && LoggedBy(second) && log == Shifted(old(log), old(Skew(first, second)))
      ensures last == Slot(start, interval, old(AddTime(first, second))) && last <= Slot(start, interval, second)
      ensures old(OnTime()) && old(Skew(first, second)) == 0 ==> OnTime()
    {
      SlotMonotone(start, interval, first, second);
      ShiftedSame(log, 0);
      var span := Span(first);
      if span <= 0 {
        return;
      }
      ghost var slot := Slot(start, interval, first);
      Advance(span, slot);
      Align(second, slot);
    }

    /** The current interval is the one the clock is in now, whichever one the ring was brought to. */
    method Align(now: int, ghost slot: int)
      requires Shape() && lastTime <= now && Agrees(alg, buckets[..], offset, slot, log)
      modifies this`lastTime, this`last, this`log
      ensures Valid() && lastTime <= now && last == Slot(start, interval, now) && log == Shifted(old(log), last - slot)
    {
      SinceLast(start, interval, last, now);
      BoundaryReached(start, interval, now);
      lastTime := now - (now - lastTime) % interval;
      last := Slot(start, interval, now);
      ShiftAgrees(alg, buckets[..], offset, slot, log, last - slot);
      log := Shifted(log, last - slot);
    }

    /** The reset buckets and the new offset bring the ring to a later interval. */
    method Advance(span: int, ghost slot: int)
      requires Valid() && slot >= last && span == if slot - last < size then slot - last else size
      modifies this`offset, buckets
      ensures 0 <= offset < size && Agrees(alg, buckets[..], offset, slot, log)
    {
      WrapAround(offset + span, size);
      ResetAhead(span);
      AdvanceAgrees(alg, old(buckets[..]), offset, last, log, buckets[..], span, slot);
      offset := (offset + span) % size;
    }

    /** Adding a value files it in its own interval; if an interval ended between the readings, the rest is filed later. */
    method Add(v: V, first: int, second: int)
      requires Valid() && LoggedBy(first) && first <= second
      modifies this, buckets
      ensures Valid() && LoggedBy(second)
      ensures var t := old(AddTime(first, second));
        log == Shifted(old(log), old(Skew(first, second))) + [Event(t, Slot(start, interval, t), v)]
      ensures old(OnTime()) && old(Skew(first, second)) == 0 ==> OnTime()
    {
      ghost var t := AddTime(first, second);
      UpdateOffset(first, second);
      ghost var e := Event(t, Slot(start, interval, t), v);
      AddAgrees(alg, buckets[..], offset, last, log, e);
      WrapAround(offset, size);
      ghost var ring := buckets[..];
      buckets[offset % size] := alg.add(buckets[offset % size], v);
      assert buckets[..] == ring[offset := alg.add(ring[offset], v)];
      log := log + [e];
    }

    /** window.reduce: `count` buckets from position `from` on. */
    method ReduceFrom(from: int, count: int) returns (visited: seq<B>)
      requires buckets.Length == size && 0 <= from < size && 0 <= count <= size
      ensures |visited| == count && forall i :: 0 <= i < count ==> visited[i] == buckets[Wrap(size, from + i)]
    {
      visited := [];
      var i := 0;
      while i < count
        invariant 0 <= i <= count && |visited| == i
        invariant forall j :: 0 <= j < i ==> visited[j] == buckets[Wrap(size, from + j)]
      {
        WrapAround(from + i, size);
        visited := visited + [buckets[(from + i) % size]];
        i := i + 1;
      }
    }

    /** Reduce, with the visited buckets as its result: the callback sees them in this order. */
    method Reduce(now: int) returns (visited: seq<B>)
      requires Valid() && LoggedBy(now)
      ensures |visited| <= size
      ensures var slot := Slot(start, interval, now);
        Seen(alg, log, slot - size + 1, if ignoreCurrent then slot else slot + 1, visited)
    {
      ghost var slot := Slot(start, interval, now);
      visited := [];
      var span := Span(now);
      var diff := size - span;
      if span == 0 && ignoreCurrent {
        diff := size - 1;
      }
      if diff > 0 {
        WrapAround(offset + span + 1, size);
        visited := ReduceFrom((offset + span + 1) % size, diff);
      }
      ReduceAgrees(alg, buckets[..], offset, last, log, slot, if ignoreCurrent then slot else slot + 1, visited);
    }
  }
}
