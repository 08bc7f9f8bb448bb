/**
 The timing wheel object of infra/collection/timingwheel.go: slot lists of
 entry references, an index from keys to (slot, entry), and a hand.

 Entries are shared between the slot lists and the index, so they live in a
 small heap of numbered records; a removed entry stays in its list until the
 hand sweeps it out.  Every method is proved to do to the timers what
 WheelClock says, with all the lists and the index staying in step.
 */
module TimingWheels {
  import opened Options
  import opened SafeMaps
  import W = WheelClock
  import opened Arithmetic

  type Key = W.Key
  type Value = W.Value

  datatype Entry = Entry(key: Key, value: Value, circle: int, diff: int, removed: bool)

  /** positionEntry: where the live entry of a key is. */
  datatype Position = Position(pos: int, item: nat)

  /** The whole state of a wheel as a value. */
  datatype Wheel = Wheel(
    numSlots: int,
    tickedPos: int,
    slots: seq<seq<nat>>,
    heap: map<nat, Entry>,
    nextId: nat,
    timers: map<Key, Position>)

  ghost predicate NoDup(s: seq<nat>)
  {
    forall a, b :: 0 <= a < b < |s| ==> s[a] != s[b]
  }

  /** An entry in a slot list is either removed or the one its key is indexed to. */
  ghost predicate ListedOk(w: Wheel, p: int, id: nat)
  {
    id in w.heap && (w.heap[id].removed ||
                     (w.heap[id].key in w.timers && w.timers[w.heap[id].key] == Position(p, id)))
  }

  /** The index leads to the key's only live entry, in the slot it records. */
  ghost predicate IndexedOk(w: Wheel, k: Key)
    requires k in w.timers && |w.slots| == w.numSlots
  {
    var t := w.timers[k];
    && 0 <= t.pos < w.numSlots && t.item in w.slots[t.pos] && t.item in w.heap
    && var e := w.heap[t.item];
       !e.removed && e.key == k && 0 <= e.circle && 0 <= e.diff < w.numSlots
  }

  ghost predicate Consistent(w: Wheel)
  {
    && |w.slots| == w.numSlots && 0 <= w.tickedPos < w.numSlots
    && (forall p, id :: 0 <= p < w.numSlots && id in w.slots[p] ==> ListedOk(w, p, id))
    && (forall p :: 0 <= p < w.numSlots ==> NoDup(w.slots[p]))
    && (forall k :: k in w.timers ==> IndexedOk(w, k))
    && (forall id :: id in w.heap ==> id < w.nextId)
  }

  ghost function TimerOf(w: Wheel, k: Key): (t: W.Timer)
    requires k in w.timers && w.timers[k].item in w.heap
  {
    var e := w.heap[w.timers[k].item];
    W.Timer(e.value, w.timers[k].pos, e.circle, e.diff)
  }

  /** The per-key timers the lists and the index stand for. */
  ghost function ClockOf(w: Wheel): (c: W.Clock)
    requires Consistent(w)
  {
    W.Clock(w.numSlots, w.tickedPos, map k | k in w.timers && IndexedOk(w, k) :: TimerOf(w, k))
  }

  lemma {:induction false} ClockOfOk(w: Wheel)
    requires Consistent(w)
    ensures W.ClockOk(ClockOf(w)) && ClockOf(w).timers.Keys == w.timers.Keys
  {
    forall k | k in w.timers ensures IndexedOk(w, k) {
    }
  }

  lemma {:induction false} ClockTimer(w: Wheel, k: Key)
    requires Consistent(w) && k in w.timers
    ensures w.timers[k].item in w.heap && k in ClockOf(w).timers && ClockOf(w).timers[k] == TimerOf(w, k)
    ensures 0 <= w.timers[k].pos < w.numSlots
  {
    assert IndexedOk(w, k);
  }

  // ------------------------------------------------------- the list surgeries

  function Cut(s: seq<nat>, j: nat): (r: seq<nat>)
    requires j < |s|
  {
    s[..j] + s[j + 1..]
  }

  lemma {:induction false} CutNoDup(s: seq<nat>, j: nat)
    requires j < |s| && NoDup(s)
    ensures NoDup(Cut(s, j))
    ensures forall x :: x in Cut(s, j) <==> x in s && x != s[j]
  {
    var r := Cut(s, j);
    forall x | x in s && x != s[j] ensures x in r {
      var a :| 0 <= a < |s| && s[a] == x;
      assert r[if a < j then a else a - 1] == x;
    }
    forall x | x in r ensures x in s && x != s[j] {
      var a :| 0 <= a < |r| && r[a] == x;
      assert s[if a < j then a else a + 1] == x;
    }
  }

  /** A removed entry is swept out of its list: no timer changes. */
  function Sweep(w: Wheel, p: int, j: nat): (w': Wheel)
    requires 0 <= p < |w.slots| && j < |w.slots[p]|
  {
    w.(slots := w.slots[p := Cut(w.slots[p], j)])
  }

  lemma {:induction false} SweepRemoved(w: Wheel, p: int, j: nat)
    requires Consistent(w) && 0 <= p < w.numSlots && j < |w.slots[p]|
    requires w.slots[p][j] in w.heap && w.heap[w.slots[p][j]].removed
    ensures Consistent(Sweep(w, p, j)) && ClockOf(Sweep(w, p, j)) == ClockOf(w)
  {
    var w' := Sweep(w, p, j);
    CutNoDup(w.slots[p], j);
    assert ListedOk(w, p, w.slots[p][j]);
    forall q, id | 0 <= q < w.numSlots && id in w'.slots[q] ensures ListedOk(w', q, id) {
      assert ListedOk(w, q, id);
    }
    forall k | k in w'.timers ensures IndexedOk(w', k) && TimerOf(w', k) == TimerOf(w, k) {
      assert IndexedOk(w, k);
    }
  }

  /** The entry at slots[p][j] fires: out of its list and out of the index. */
  lemma {:induction false} SweepFired(w: Wheel, p: int, j: nat)
    requires Consistent(w) && 0 <= p < w.numSlots && j < |w.slots[p]|
    requires w.slots[p][j] in w.heap && !w.heap[w.slots[p][j]].removed
    ensures var k := w.heap[w.slots[p][j]].key;
      var w' := Sweep(w, p, j).(timers := w.timers - {k});
      Consistent(w') && ClockOf(w') == W.Remove(ClockOf(w), k)
  {
    var id0 := w.slots[p][j];
    var k0 := w.heap[id0].key;
    var w' := Sweep(w, p, j).(timers := w.timers - {k0});
    CutNoDup(w.slots[p], j);
    assert ListedOk(w, p, id0);
    forall q, id | 0 <= q < w.numSlots && id in w'.slots[q] ensures ListedOk(w', q, id) {
      assert ListedOk(w, q, id);
    }
    forall k | k in w'.timers ensures IndexedOk(w', k) && TimerOf(w', k) == TimerOf(w, k) {
      assert IndexedOk(w, k);
    }
  }

  /** The fields of a live entry change in place. */
  lemma {:induction false} EntryEdited(w: Wheel, k: Key, e: Entry)
    requires Consistent(w) && k in w.timers
    requires !e.removed && e.key == k && 0 <= e.circle && 0 <= e.diff < w.numSlots
    ensures var w' := w.(heap := w.heap[w.timers[k].item := e]);
      && Consistent(w')
      && ClockOf(w') == W.Put(ClockOf(w), k, W.Timer(e.value, w.timers[k].pos, e.circle, e.diff))
  {
    assert IndexedOk(w, k);
    var item := w.timers[k].item;
    var w' := w.(heap := w.heap[item := e]);
    forall q, id | 0 <= q < w.numSlots && id in w'.slots[q] ensures ListedOk(w', q, id) {
      assert ListedOk(w, q, id);
    }
    forall x | x in w'.timers
      ensures IndexedOk(w', x) && (x != k ==> TimerOf(w', x) == TimerOf(w, x))
    {
      assert IndexedOk(w, x);
    }
  }

  /** A live entry whose shift is due moves to another slot list. */
  function Relink(w: Wheel, p: int, j: nat, q: int): (w': Wheel)
    requires 0 <= p < |w.slots| && 0 <= q < |w.slots| && j < |w.slots[p]| && w.slots[p][j] in w.heap
  {
    var id := w.slots[p][j];
    var cut := w.slots[p := Cut(w.slots[p], j)];
    w.(slots := cut[q := cut[q] + [id]],
       heap := w.heap[id := w.heap[id].(diff := 0)],
       timers := w.timers[w.heap[id].key := Position(q, id)])
  }

  lemma {:induction false} Relinked(w: Wheel, p: int, j: nat, q: int)
    requires Consistent(w) && 0 <= p < w.numSlots && 0 <= q < w.numSlots && p != q
    requires j < |w.slots[p]| && w.slots[p][j] in w.heap && !w.heap[w.slots[p][j]].removed
    ensures var e := w.heap[w.slots[p][j]];
      && Consistent(Relink(w, p, j, q))
      && ClockOf(Relink(w, p, j, q)) == W.Put(ClockOf(w), e.key, W.Timer(e.value, q, e.circle, 0))
  {
    var id0 := w.slots[p][j];
    var k0 := w.heap[id0].key;
    var w' := Relink(w, p, j, q);
    CutNoDup(w.slots[p], j);
    assert ListedOk(w, p, id0);
    assert IndexedOk(w, k0);
    assert id0 in w.slots[q] ==> ListedOk(w, q, id0);
    forall r, id | 0 <= r < w.numSlots && id in w'.slots[r] ensures ListedOk(w', r, id) {
      if id != id0 {
        assert ListedOk(w, r, id);
      }
    }
    forall k | k in w'.timers
      ensures IndexedOk(w', k) && (k != k0 ==> TimerOf(w', k) == TimerOf(w, k))
    {
      if k != k0 {
        assert IndexedOk(w, k);
        assert w.timers[k].item != id0;
      } else {
        assert w'.slots[q][|w.slots[q]|] == id0;
      }
    }
  }

  /** A fresh entry for a key that has no live one, at the end of slot q. */
  function Link(w: Wheel, k: Key, v: Value, q: int, circle: int): (w': Wheel)
    requires 0 <= q < |w.slots|
  {
    w.(slots := w.slots[q := w.slots[q] + [w.nextId]],
       heap := w.heap[w.nextId := Entry(k, v, circle, 0, false)],
       nextId := w.nextId + 1,
       timers := w.timers[k := Position(q, w.nextId)])
  }

  lemma {:induction false} Linked(w: Wheel, k0: Key, v: Value, q: int, circle: int)
    requires Consistent(w) && 0 <= q < w.numSlots && circle >= 0 && k0 !in w.timers
    ensures Consistent(Link(w, k0, v, q, circle))
    ensures ClockOf(Link(w, k0, v, q, circle)) == W.Put(ClockOf(w), k0, W.Timer(v, q, circle, 0))
  {
    var w' := Link(w, k0, v, q, circle);
    var id0 := w.nextId;
    forall r, id | 0 <= r < w.numSlots && id in w'.slots[r] ensures ListedOk(w', r, id) {
      if id != id0 {
        assert ListedOk(w, r, id);
      }
    }
    forall r | 0 <= r < w.numSlots ensures NoDup(w'.slots[r]) {
      forall a | 0 <= a < |w.slots[r]| ensures w.slots[r][a] != id0 {
        assert ListedOk(w, r, w.slots[r][a]);
      }
    }
    forall k | k in w'.timers
      ensures IndexedOk(w', k) && (k != k0 ==> TimerOf(w', k) == TimerOf(w, k))
    {
      if k != k0 {
        assert IndexedOk(w, k);
      } else {
        assert w'.slots[q][|w.slots[q]|] == id0;
      }
    }
  }

  /** removeTask, also the first half of a re-insertion: mark the entry, drop the key. */
  function Unlink(w: Wheel, k: Key): (w': Wheel)
    requires k in w.timers && w.timers[k].item in w.heap
  {
    var item := w.timers[k].item;
    w.(heap := w.heap[item := w.heap[item].(removed := true)], timers := w.timers - {k})
  }

  lemma {:induction false} Unlinked(w: Wheel, k0: Key)
    requires Consistent(w) && k0 in w.timers && w.timers[k0].item in w.heap
    ensures Consistent(Unlink(w, k0)) && ClockOf(Unlink(w, k0)) == W.Remove(ClockOf(w), k0)
  {
    var w' := Unlink(w, k0);
    assert IndexedOk(w, k0);
    forall q, id | 0 <= q < w.numSlots && id in w'.slots[q] ensures ListedOk(w', q, id) {
      assert ListedOk(w, q, id);
    }
    forall k | k in w'.timers ensures IndexedOk(w', k) && TimerOf(w', k) == TimerOf(w, k) {
      assert IndexedOk(w, k);
    }
  }

  lemma {:induction false} LinkOverUnlinked(w: Wheel, k: Key, q: int)
    requires |w.slots| == w.numSlots && k in w.timers && w.timers[k].item in w.heap && 0 <= q < w.numSlots
    ensures var e := w.heap[w.timers[k].item];
      Link(w.(heap := w.heap[w.timers[k].item := e.(removed := true)]), k, e.value, q, 0)
      == Link(Unlink(w, k), k, e.value, q, 0)
  {
    var t := Position(q, w.nextId);
    assert (w.timers - {k})[k := t] == w.timers[k := t];
  }

  /** Marking the old entry and linking a new one in its place, the key staying indexed throughout. */
  lemma {:induction false} Reinserted(w: Wheel, k: Key, q: int)
    requires Consistent(w) && k in w.timers && w.timers[k].item in w.heap && 0 <= q < w.numSlots
    ensures var e := w.heap[w.timers[k].item];
      var w' := Link(w.(heap := w.heap[w.timers[k].item := e.(removed := true)]), k, e.value, q, 0);
      && Consistent(w')
      && ClockOf(w') == W.Put(ClockOf(w), k, W.Timer(e.value, q, 0, 0))
  {
    var e := w.heap[w.timers[k].item];
    Unlinked(w, k);
    Linked(Unlink(w, k), k, e.value, q, 0);
    LinkOverUnlinked(w, k, q);
    W.PutOverRemoved(ClockOf(w), k, W.Timer(e.value, q, 0, 0));
  }

  lemma {:induction false} HandMoved(w: Wheel, hand: int)
    requires Consistent(w) && 0 <= hand < w.numSlots
    ensures Consistent(w.(tickedPos := hand))
    ensures ClockOf(w.(tickedPos := hand)) == ClockOf(w).(hand := hand)
  {
    var w' := w.(tickedPos := hand);
    forall q, id | 0 <= q < w.numSlots && id in w'.slots[q] ensures ListedOk(w', q, id) {
      assert ListedOk(w, q, id);
    }
    forall k | k in w'.timers ensures IndexedOk(w', k) && TimerOf(w', k) == TimerOf(w, k) {
      assert IndexedOk(w, k);
    }
  }

  // ---------------------------------------------------------- the slot scan

  /**
   The clock half-way through a tick: the hand has moved, the timers of the
   keys in `pending` have not been visited yet.
   */
  ghost function PartTick(c: W.Clock, pending: set<Key>): (c': W.Clock)
    requires c.numSlots > 0
  {
    c.(hand := W.NextHand(c),
       timers := map k | k in c.timers && (k in pending || !W.Fires(c, k)) ::
         if k in pending then c.timers[k] else W.VisitTimer(c.numSlots, W.NextHand(c), c.timers[k]).timer)
  }

  /** Visiting one pending key. */
  lemma {:induction false} VisitOne(c: W.Clock, pending: set<Key>, k: Key)
    requires c.numSlots > 0 && k in pending && k in c.timers
    ensures var v := W.VisitTimer(c.numSlots, W.NextHand(c), c.timers[k]);
      PartTick(c, pending - {k}) ==
      if v.Fire? then W.Remove(PartTick(c, pending), k) else W.Put(PartTick(c, pending), k, v.timer)
  {
  }

  /** The tasks run so far are those of the visited keys that fire, each once. */
  ghost predicate FiredSoFar(c: W.Clock, pending: set<Key>, tasks: seq<(Key, Value)>)
    requires c.numSlots > 0
  {
    && (forall k :: W.Fires(c, k) && k !in pending ==> (k, c.timers[k].value) in tasks)
    && (forall i :: 0 <= i < |tasks| ==>
          W.Fires(c, tasks[i].0) && tasks[i].0 !in pending && tasks[i].1 == c.timers[tasks[i].0].value)
    && (forall i, j :: 0 <= i < j < |tasks| ==> tasks[i].0 != tasks[j].0)
  }

  /** Exactly the keys that fire at this tick, each once and with its value. */
  ghost predicate ExactlyFired(c: W.Clock, tasks: seq<(Key, Value)>)
    requires c.numSlots > 0
  {
    FiredSoFar(c, {}, tasks)
  }

  /** The keys whose entries are still ahead of position j in the hand's list. */
  ghost function Pending(w: Wheel, j: nat): (ks: set<Key>)
    requires 0 <= w.tickedPos < |w.slots| && j <= |w.slots[w.tickedPos]|
  {
    set k | k in w.timers && w.timers[k].pos == w.tickedPos && w.timers[k].item in w.slots[w.tickedPos][j..]
  }

  /** What holds between two iterations of scanAndRunTasks, for a tick that started at clock c. */
  ghost predicate Scanning(w: Wheel, j: nat, c: W.Clock)
  {
    && Consistent(w) && c.numSlots == w.numSlots && w.tickedPos == W.NextHand(c)
    && j <= |w.slots[w.tickedPos]|
    && ClockOf(w) == PartTick(c, Pending(w, j))
  }

  datatype Scan = Scan(wheel: Wheel, j: nat, ran: seq<(Key, Value)>)

  /** One iteration takes at most one key off the pending ones and runs its task exactly if it fires. */
  ghost predicate Visited(c: W.Clock, before: set<Key>, after: set<Key>, ran: seq<(Key, Value)>)
    requires c.numSlots > 0
  {
    || (after == before && ran == [])
    || (exists k :: k in before && after == before - {k} && k in c.timers
                    && ran == if W.Fires(c, k) then [(k, c.timers[k].value)] else [])
  }

  /** An iteration that took the scan from (w, j) to r. */
  ghost predicate Advanced(w: Wheel, j: nat, r: Scan, c: W.Clock)
    requires Scanning(w, j, c)
  {
    && Scanning(r.wheel, r.j, c)
    && |r.wheel.slots[w.tickedPos]| - r.j < |w.slots[w.tickedPos]| - j
    && Visited(c, Pending(w, j), Pending(r.wheel, r.j), r.ran)
  }

  lemma {:induction false} ScanStarts(w: Wheel, c: W.Clock)
    requires Consistent(w) && c.numSlots == w.numSlots && w.tickedPos == W.NextHand(c)
    requires ClockOf(w) == c.(hand := W.NextHand(c))
    ensures Scanning(w, 0, c)
  {
    ClockOfOk(w);
    forall k | k in c.timers && k !in Pending(w, 0)
      ensures c.timers[k].pos != w.tickedPos
    {
      assert k in w.timers;
      assert IndexedOk(w, k);
      assert w.slots[w.tickedPos][0..] == w.slots[w.tickedPos];
    }
  }

  lemma {:induction false} FiredNothing(w: Wheel, c: W.Clock)
    requires Scanning(w, 0, c) && ClockOf(w) == c.(hand := W.NextHand(c))
    ensures FiredSoFar(c, Pending(w, 0), [])
  {
    assert forall k :: k in c.timers ==> k in PartTick(c, Pending(w, 0)).timers;
  }

  lemma {:induction false} ScanEnds(w: Wheel, j: nat, c: W.Clock)
    requires Scanning(w, j, c) && j == |w.slots[w.tickedPos]|
    ensures Pending(w, j) == {} && ClockOf(w) == W.Tick(c)
  {
    assert w.slots[w.tickedPos][j..] == [];
  }

  /** The live entry at position j belongs to a pending key whose timer is still untouched. */
  lemma {:induction false} ScanLive(w: Wheel, j: nat, c: W.Clock)
    requires Scanning(w, j, c) && j < |w.slots[w.tickedPos]|
    requires w.slots[w.tickedPos][j] in w.heap && !w.heap[w.slots[w.tickedPos][j]].removed
    ensures var id := w.slots[w.tickedPos][j];
      var k := w.heap[id].key;
      && k in Pending(w, j) && w.timers[k] == Position(w.tickedPos, id)
      && k in c.timers && c.timers[k] == TimerOf(w, k)
      && w.heap[id].circle >= 0 && 0 <= w.heap[id].diff < w.numSlots
  {
    var id := w.slots[w.tickedPos][j];
    assert ListedOk(w, w.tickedPos, id);
    var k := w.heap[id].key;
    assert IndexedOk(w, k);
    assert w.slots[w.tickedPos][j..][0] == id;
    assert k in ClockOf(w).timers;
  }

  lemma {:induction false} ScanRemoved(w: Wheel, j: nat, c: W.Clock)
    requires Scanning(w, j, c) && j < |w.slots[w.tickedPos]|
    requires w.slots[w.tickedPos][j] in w.heap && w.heap[w.slots[w.tickedPos][j]].removed
    ensures Advanced(w, j, Scan(Sweep(w, w.tickedPos, j), j, []), c)
  {
    var l := w.slots[w.tickedPos];
    SweepRemoved(w, w.tickedPos, j);
    assert Cut(l, j)[j..] == l[j + 1..];
    assert l[j..] == [l[j]] + l[j + 1..];
    forall k | k in Pending(w, j) ensures w.timers[k].item != l[j] {
      assert IndexedOk(w, k);
    }
  }

  /** Passing the entry at j, which stays in the list but is no longer pending. */
  lemma {:induction false} PendingPassed(w: Wheel, j: nat)
    requires Consistent(w) && j < |w.slots[w.tickedPos]| && w.slots[w.tickedPos][j] in w.heap
    requires var k := w.heap[w.slots[w.tickedPos][j]].key;
      k in w.timers && w.timers[k] == Position(w.tickedPos, w.slots[w.tickedPos][j])
    ensures Pending(w, j + 1) == Pending(w, j) - {w.heap[w.slots[w.tickedPos][j]].key}
  {
    var l := w.slots[w.tickedPos];
    var k0 := w.heap[l[j]].key;
    assert l[j..] == [l[j]] + l[j + 1..];
    assert l[j] !in l[j + 1..];
    forall k | k in Pending(w, j) && k != k0 ensures w.timers[k].item != l[j] {
      assert IndexedOk(w, k);
    }
  }

  /** A full circle is used up: the entry stays where it is. */
  lemma {:induction false} ScanCircle(w: Wheel, j: nat, c: W.Clock)
    requires Scanning(w, j, c) && j < |w.slots[w.tickedPos]|
    requires var id := w.slots[w.tickedPos][j];
      id in w.heap && !w.heap[id].removed && w.heap[id].circle > 0
    ensures var id := w.slots[w.tickedPos][j];
      var e := w.heap[id];
      Advanced(w, j, Scan(w.(heap := w.heap[id := e.(circle := e.circle - 1)]), j + 1, []), c)
  {
    var id := w.slots[w.tickedPos][j];
    var e := w.heap[id];
    var w' := w.(heap := w.heap[id := e.(circle := e.circle - 1)]);
    ScanLive(w, j, c);
    PendingPassed(w, j);
    EntryEdited(w, e.key, e.(circle := e.circle - 1));
    VisitOne(c, Pending(w, j), e.key);
    assert Pending(w', j + 1) == Pending(w, j + 1);
  }

  lemma {:induction false} PendingRelinked(w: Wheel, j: nat, q: int)
    requires Consistent(w) && j < |w.slots[w.tickedPos]| && 0 <= q < w.numSlots && q != w.tickedPos
    requires w.slots[w.tickedPos][j] in w.heap
    requires var k := w.heap[w.slots[w.tickedPos][j]].key;
      k in w.timers && w.timers[k] == Position(w.tickedPos, w.slots[w.tickedPos][j])
    ensures Pending(Relink(w, w.tickedPos, j, q), j) == Pending(w, j + 1)
  {
    var l := w.slots[w.tickedPos];
    assert Cut(l, j)[j..] == l[j + 1..];
    assert l[j] !in l[j + 1..];
  }

  /** A shift is due: the entry goes to another slot's list. */
  lemma {:induction false} ScanShift(w: Wheel, j: nat, c: W.Clock, q: int)
    requires Scanning(w, j, c) && j < |w.slots[w.tickedPos]|
    requires var id := w.slots[w.tickedPos][j];
      && id in w.heap && !w.heap[id].removed && w.heap[id].circle == 0 && w.heap[id].diff > 0
      && 0 <= q < w.numSlots && q == (w.tickedPos + w.heap[id].diff) % w.numSlots && q != w.tickedPos
    ensures Advanced(w, j, Scan(Relink(w, w.tickedPos, j, q), j, []), c)
  {
    var k := w.heap[w.slots[w.tickedPos][j]].key;
    ScanLive(w, j, c);
    PendingPassed(w, j);
    PendingRelinked(w, j, q);
    var e := w.heap[w.slots[w.tickedPos][j]];
    assert W.VisitTimer(c.numSlots, W.NextHand(c), c.timers[k]) == W.Keep(W.Timer(e.value, q, 0, 0));
    Relinked(w, w.tickedPos, j, q);
    VisitOne(c, Pending(w, j), k);
    assert k in Pending(w, j);
  }

  /** Due: the entry leaves the list and the index. */
  lemma {:induction false} ScanFire(w: Wheel, j: nat, c: W.Clock)
    requires Scanning(w, j, c) && j < |w.slots[w.tickedPos]|
    requires var id := w.slots[w.tickedPos][j];
      id in w.heap && !w.heap[id].removed && w.heap[id].circle == 0 && w.heap[id].diff == 0
    ensures var e := w.heap[w.slots[w.tickedPos][j]];
      Advanced(w, j, Scan(Sweep(w, w.tickedPos, j).(timers := w.timers - {e.key}), j, [(e.key, e.value)]), c)
  {
    var l := w.slots[w.tickedPos];
    var k := w.heap[l[j]].key;
    var w' := Sweep(w, w.tickedPos, j).(timers := w.timers - {k});
    ScanLive(w, j, c);
    PendingPassed(w, j);
    SweepFired(w, w.tickedPos, j);
    VisitOne(c, Pending(w, j), k);
    assert Cut(l, j)[j..] == l[j + 1..];
    assert Pending(w', j) == Pending(w, j + 1);
  }

  /** One iteration of scanAndRunTasks at position j of the hand's list. */
  function ScanStep(w: Wheel, j: nat): (r: Scan)
    requires |w.slots| == w.numSlots && 0 <= w.tickedPos < w.numSlots && j < |w.slots[w.tickedPos]|
    requires w.slots[w.tickedPos][j] in w.heap
  {
    var id := w.slots[w.tickedPos][j];
    var task := w.heap[id];
    if task.removed then Scan(Sweep(w, w.tickedPos, j), j, [])
    else if task.circle > 0 then Scan(w.(heap := w.heap[id := task.(circle := task.circle - 1)]), j + 1, [])
    else if task.diff > 0 then Scan(Relink(w, w.tickedPos, j, (w.tickedPos + task.diff) % w.numSlots), j, [])
    else Scan(Sweep(w, w.tickedPos, j).(timers := w.timers - {task.key}), j, [(task.key, task.value)])
  }

  lemma {:induction false} ScanStepKeeps(w: Wheel, j: nat, c: W.Clock)
    requires Scanning(w, j, c) && j < |w.slots[w.tickedPos]|
    ensures w.slots[w.tickedPos][j] in w.heap
    ensures Advanced(w, j, ScanStep(w, j), c)
  {
    assert ListedOk(w, w.tickedPos, w.slots[w.tickedPos][j]);
    var id := w.slots[w.tickedPos][j];
    var task := w.heap[id];
    if task.removed {
      ScanRemoved(w, j, c);
      assert ScanStep(w, j) == Scan(Sweep(w, w.tickedPos, j), j, []);
    } else if task.circle > 0 {
      ScanCircle(w, j, c);
      assert ScanStep(w, j) == Scan(w.(heap := w.heap[id := task.(circle := task.circle - 1)]), j + 1, []);
    } else {
      ScanLive(w, j, c);
      if task.diff > 0 {
        W.ShiftedSlot(w.numSlots, w.tickedPos, task.diff);
        ScanShift(w, j, c, (w.tickedPos + task.diff) % w.numSlots);
        assert ScanStep(w, j) == Scan(Relink(w, w.tickedPos, j, (w.tickedPos + task.diff) % w.numSlots), j, []);
      } else {
        ScanFire(w, j, c);
        assert ScanStep(w, j) ==
          Scan(Sweep(w, w.tickedPos, j).(timers := w.timers - {task.key}), j, [(task.key, task.value)]);
      }
    }
  }

  lemma {:induction false} FiredMore(c: W.Clock, before: set<Key>, after: set<Key>, tasks: seq<(Key, Value)>,
                                     ran: seq<(Key, Value)>)
    requires c.numSlots > 0 && FiredSoFar(c, before, tasks) && Visited(c, before, after, ran)
    ensures FiredSoFar(c, after, tasks + ran)
  {
    if !(after == before && ran == []) {
      var k :| k in before && after == before - {k} && k in c.timers
               && ran == if W.Fires(c, k) then [(k, c.timers[k].value)] else [];
      if W.Fires(c, k) {
        assert (tasks + ran)[|tasks|] == (k, c.timers[k].value);
      }
    }
  }

  // --------------------------------------------------------------- the object

  class TimingWheel {
    const interval: int
    const numSlots: int
    var tickedPos: int
    var slots: seq<seq<nat>>
    var heap: map<nat, Entry>
    var nextId: nat
    const timers: SafeMap<Key, Position>

    ghost function View(): (w: Wheel)
      reads this, timers
    {
      Wheel(numSlots, tickedPos, slots, heap, nextId, timers.Contents())
    }

    ghost predicate Valid()
      reads this, timers
    {
      interval > 0 && timers.Valid() && Consistent(View())
    }

    /** The timers of this wheel, one per key. */
    ghost function Clock(): (c: W.Clock)
      reads this, timers
      requires Valid()
      ensures 0 <= c.hand < c.numSlots
    {
      ClockOf(View())
    }

    constructor (interval: int, numSlots: int)
      requires interval > 0 && numSlots > 0
      ensures Valid() && fresh(timers)
      ensures this.interval == interval && Clock() == W.Clock(numSlots, numSlots - 1, map[])
    {
      this.interval := interval;
      this.numSlots := numSlots;
      tickedPos := numSlots - 1;
      slots := seq(numSlots, _ => []);
      heap := map[];
      nextId := 0;
      timers := new SafeMap();
    }

    /** NewTimingWheel: a wheel, or an error for a non-positive interval or slot number or a missing callback. */
    static method Create(interval: int, numSlots: int, hasExecute: bool) returns (r: Option<TimingWheel>)
      ensures r.None? <==> interval <= 0 || numSlots <= 0 || !hasExecute
      ensures r.Some? ==> fresh(r.value) && fresh(r.value.timers) && r.value.Valid()
      ensures r.Some? ==> r.value.interval == interval && r.value.Clock() == W.Clock(numSlots, numSlots - 1, map[])
    {
      if interval <= 0 || numSlots <= 0 || !hasExecute {
        return None;
      }
      var wheel := new TimingWheel(interval, numSlots);
      return Some(wheel);
    }

    /** setTimerPosition, for an entry that is now in the list of slot pos. */
    method SetTimerPosition(pos: int, item: nat)
      requires timers.Valid() && item in heap
      modifies timers
      ensures timers.Valid() && timers.Contents() == old(timers.Contents())[heap[item].key := Position(pos, item)]
    {
      timers.Set(heap[item].key, Position(pos, item));
    }

    method PushNew(key: Key, value: Value, pos: int, circle: int)
      requires timers.Valid() && 0 <= pos < |slots|
      modifies this, timers
      ensures timers.Valid() && View() == Link(old(View()), key, value, pos, circle)
    {
      heap := heap[nextId := Entry(key, value, circle, 0, false)];
      slots := slots[pos := slots[pos] + [nextId]];
      nextId := nextId + 1;
      SetTimerPosition(pos, nextId - 1);
    }

    method GetPositionAndCircle(steps: int) returns (pos: int, circle: int)
      requires Valid() && steps >= 1
      ensures (pos, circle) == W.Target(Clock(), steps)
      ensures 0 <= pos < numSlots && circle >= 0
    {
      W.TargetExact(Clock(), steps);
      pos := (tickedPos + steps) % numSlots;
      circle := (steps - 1) / numSlots;
    }

    /** Writing through the entry pointer of a key's live entry. */
    method EditEntry(key: Key, item: nat, e: Entry)
      requires Valid() && key in timers.Contents() && timers.Contents()[key].item == item
      requires !e.removed && e.key == key && 0 <= e.circle && 0 <= e.diff < numSlots
      modifies this
      ensures Valid() && timers.Contents() == old(timers.Contents()) && item in heap && heap[item] == e
      ensures Clock() == W.Put(old(Clock()), key, W.Timer(e.value, old(timers.Contents()[key].pos), e.circle, e.diff))
    {
      EntryEdited(View(), key, e);
      heap := heap[item := e];
    }

    /** The in-place cases of moveTask: new circles and a new forward shift. */
    method Shift(key: Key, timer: Position, circle: int, diff: int)
      requires Valid() && key in timers.Contents() && timers.Contents()[key] == timer
      requires 0 <= circle && 0 <= diff < numSlots
      modifies this
      ensures Valid() && Clock() == W.Put(old(Clock()), key, old(Clock()).timers[key].(circle := circle, diff := diff))
    {
      assert IndexedOk(View(), key);
      EditEntry(key, timer.item, heap[timer.item].(circle := circle, diff := diff));
    }

    /** The default case of moveTask: the old entry is left as garbage, a new one is linked. */
    method Reinsert(key: Key, timer: Position, pos: int)
      requires Valid() && key in timers.Contents() && timers.Contents()[key] == timer
      requires 0 <= pos < numSlots
      modifies this, timers
      ensures Valid() && Clock() == W.Put(old(Clock()), key, W.Timer(old(Clock()).timers[key].value, pos, 0, 0))
    {
      assert IndexedOk(View(), key);
      var value := heap[timer.item].value;
      Reinserted(View(), key, pos);
      heap := heap[timer.item := heap[timer.item].(removed := true)];
      PushNew(key, value, pos, 0);
    }

    /** The three cases of moveTask for a delay of at least one interval. */
    method Retarget(key: Key, timer: Position, pos: int, circle: int)
      requires Valid() && key in timers.Contents() && timers.Contents()[key] == timer
      requires 0 <= pos < numSlots && circle >= 0
      modifies this, timers
      ensures Valid()
      ensures Clock() == W.Put(old(Clock()), key, W.RetimeTo(numSlots, old(Clock()).timers[key], pos, circle))
    {
      ClockTimer(View(), key);
      if pos >= timer.pos {
        Shift(key, timer, circle, pos - timer.pos);
      } else if circle > 0 {
        Shift(key, timer, circle - 1, numSlots + pos - timer.pos);
      } else {
        Reinsert(key, timer, pos);
      }
    }

    /** moveTask: a delay under one interval only runs the task, the wheel keeps its entry. */
    method MoveTask(key: Key, delay: int) returns (ran: Option<Value>)
      requires Valid()
      modifies this, timers
      ensures Valid()
      ensures ran == if key in old(Clock()).timers && delay < interval then Some(old(Clock()).timers[key].value) else None
      ensures Clock() == if delay < interval then old(Clock()) else W.Move(old(Clock()), key, W.Steps(interval, delay))
    {
      ran := None;
      var found := timers.Get(key);
      if found.None? {
        return;
      }
      assert IndexedOk(View(), key);
      if delay < interval {
        return Some(heap[found.value.item].value);
      }
      var pos, circle := GetPositionAndCircle(delay / interval);
      Retarget(key, found.value, pos, circle);
    }

    method SetTask(key: Key, value: Value, delay: int)
      requires Valid()
      modifies this, timers
      ensures Valid() && Clock() == W.Set(old(Clock()), key, value, W.Steps(interval, delay))
    {
      var d := if delay < interval then interval else delay;
      assert d / interval == W.Steps(interval, delay) by {
        if delay < interval {
          DivModUnique(interval, interval, 1, 0);
        }
      }
      var found := timers.Get(key);
      if found.Some? {
        assert IndexedOk(View(), key);
        var item := found.value.item;
        EditEntry(key, item, heap[item].(value := value));
        var _ := MoveTask(key, d);
      } else {
        var pos, circle := GetPositionAndCircle(d / interval);
        Linked(View(), key, value, pos, circle);
        PushNew(key, value, pos, circle);
      }
    }

    method RemoveTask(key: Key)
      requires Valid()
      modifies this, timers
      ensures Valid() && Clock() == W.Remove(old(Clock()), key)
    {
      var found := timers.Get(key);
      if found.None? {
        assert Clock() == W.Remove(old(Clock()), key);
        return;
      }
      assert IndexedOk(View(), key);
      Unlinked(View(), key);
      var item := found.value.item;
      heap := heap[item := heap[item].(removed := true)];
      timers.Del(key);
    }

    /** One iteration of the scan. */
    method ScanOne(j: nat) returns (j': nat, ran: seq<(Key, Value)>)
      requires timers.Valid() && |slots| == numSlots && 0 <= tickedPos < numSlots
      requires j < |slots[tickedPos]| && slots[tickedPos][j] in heap
      modifies this, timers
      ensures timers.Valid() && Scan(View(), j', ran) == ScanStep(old(View()), j)
    {
      var id := slots[tickedPos][j];
      var task := heap[id];
      j', ran := j, [];
      if task.removed {
        slots := slots[tickedPos := Cut(slots[tickedPos], j)];
      } else if task.circle > 0 {
        heap := heap[id := task.(circle := task.circle - 1)];
        j' := j + 1;
      } else if task.diff > 0 {
        slots := slots[tickedPos := Cut(slots[tickedPos], j)];
        var pos := (tickedPos + task.diff) % numSlots;
        slots := slots[pos := slots[pos] + [id]];
        SetTimerPosition(pos, id);
        heap := heap[id := task.(diff := 0)];
      } else {
        ran := [(task.key, task.value)];
        slots := slots[tickedPos := Cut(slots[tickedPos], j)];
        timers.Del(task.key);
      }
    }

    /** scanAndRunTasks over the list of the slot the hand has just reached. */
    method ScanAndRunTasks(ghost c: W.Clock) returns (tasks: seq<(Key, Value)>)
      requires Valid() && c.numSlots == numSlots && tickedPos == W.NextHand(c)
      requires Clock() == c.(hand := W.NextHand(c))
      modifies this, timers
      ensures Valid() && Clock() == W.Tick(c)
      ensures ExactlyFired(c, tasks)
    {
      tasks := [];
      var j: nat := 0;
      ScanStarts(View(), c);
      FiredNothing(View(), c);
      while j < |slots[tickedPos]|
        invariant timers.Valid() && Scanning(View(), j, c)
        invariant FiredSoFar(c, Pending(View(), j), tasks)
        decreases |slots[tickedPos]| - j
      {
        ghost var w, j0 := View(), j;
        ScanStepKeeps(w, j, c);
        var ran;
        j, ran := ScanOne(j);
        FiredMore(c, Pending(w, j0), Pending(View(), j), tasks, ran);
        tasks := tasks + ran;
      }
      ScanEnds(View(), j, c);
    }

    /** onTick: advance the hand and scan its slot; `tasks` is what runTasks executes. */
    method OnTick() returns (tasks: seq<(Key, Value)>)
      requires Valid()
      modifies this, timers
      ensures Valid() && Clock() == W.Tick(old(Clock()))
      ensures ExactlyFired(old(Clock()), tasks)
    {
      ghost var c := Clock();
      W.HandStep(numSlots, tickedPos);
      tickedPos := (tickedPos + 1) % numSlots;
      HandMoved(old(View()), tickedPos);
      tasks := ScanAndRunTasks(c);
    }
  }
}
