/**
 GetValues of infra/discov/subscriber.go among concurrent changes.  A reader
 tests the dirty flag and loads the snapshot without the lock; a change sets the
 flag before it touches the maps, and a refresh stores the snapshot before it
 clears the flag, both under the lock.  Every such access is one step.
 */
module SnapshotReads {
  import opened Discovery

  /** Who holds the lock, and how far. */
  datatype Holder =
    | Free
    | Changing(event: Event)                             // the flag is set, the maps are not changed yet
    | Refreshing(i: nat, vals: seq<string>, stored: bool) // reader i has collected the values

  /** Where a GetValues call is; `start` and `stop` are the versions of the mapping when it began and returned. */
  datatype Reader =
    | Test(start: nat)
    | Load(start: nat)
    | Wait(start: nat)
    | Done(start: nat, stop: nat, vals: seq<string>)

  datatype State = State(
    exclusive: bool,
    versions: seq<map<string, string>>, // history: every mapping there was; the last one is the current one
    dirty: bool,
    snapshot: seq<string>,
    lock: Holder,
    readers: seq<Reader>
  )

  function Initial(exclusive: bool): (s: State)
  {
    State(exclusive, [map[]], true, [], Free, [])
  }

  function Now(s: State): (n: nat)
    requires s.versions != []
  {
    |s.versions| - 1
  }

  function Current(s: State): (m: map<string, string>)
    requires s.versions != []
  {
    s.versions[Now(s)]
  }

  /** A put of the value that the key has already changes nothing, not even the flag. */
  predicate Repeats(m: map<string, string>, e: Event)
  {
    e.Add? && e.key in m && m[e.key] == e.value
  }

  datatype Step =
    | Begin                                     // a new GetValues call
    | TestFlag(i: nat)
    | LoadSnapshot(i: nat)
    | Collect(i: nat, vals: seq<string>)        // reader i locks and lists the values, in any order
    | Store
    | Clean                                     // the flag is cleared and the reader returns
    | BeginChange(event: Event)
    | EndChange

  ghost predicate Enabled(s: State, step: Step)
  {
    && s.versions != []
    && match step
       case Begin => true
       case TestFlag(i) => i < |s.readers| && s.readers[i].Test?
       case LoadSnapshot(i) => i < |s.readers| && s.readers[i].Load?
       case Collect(i, vals) => i < |s.readers| && s.readers[i].Wait? && s.lock.Free? && ListsValues(vals, Current(s))
       case Store => s.lock.Refreshing? && !s.lock.stored
       case Clean => s.lock.Refreshing? && s.lock.stored && s.lock.i < |s.readers|
       case BeginChange(e) => s.lock.Free? && !Repeats(Current(s), e)
       case EndChange => s.lock.Changing?
  }

  ghost function Apply(s: State, step: Step): (s': State)
    requires Enabled(s, step)
  {
    match step
    case Begin => s.(readers := s.readers + [Test(Now(s))])
    case TestFlag(i) =>
      var start := s.readers[i].start;
      s.(readers := s.readers[i := if s.dirty then Wait(start) else Load(start)])
    case LoadSnapshot(i) => s.(readers := s.readers[i := Done(s.readers[i].start, Now(s), s.snapshot)])
    case Collect(i, vals) => s.(lock := Refreshing(i, vals, false))
    case Store => s.(snapshot := s.lock.vals, lock := s.lock.(stored := true))
    case Clean =>
      s.(dirty := false, lock := Free,
         readers := s.readers[s.lock.i := Done(s.readers[s.lock.i].start, Now(s), s.lock.vals)])
    case BeginChange(e) => s.(dirty := true, lock := Changing(e))
    case EndChange => s.(versions := s.versions + [Do(Current(s), s.lock.event, s.exclusive)], lock := Free)
  }

  // -------------------------------------------------------------- the invariant

  /** The values are those of a version from one to another. */
  ghost predicate OfVersion(versions: seq<map<string, string>>, from: nat, to: nat, vals: seq<string>)
    requires to < |versions|
  {
    exists k :: from <= k <= to && ListsValues(vals, versions[k])
  }

  /** A reader on its way to the snapshot will find the values of a version since it began; one that returned had them. */
  ghost predicate ReaderOk(s: State, r: Reader)
    requires s.versions != []
  {
    match r
    case Test(start) => start <= Now(s)
    case Load(start) => OfVersion(s.versions, start, Now(s), s.snapshot)
    case Wait(start) => start <= Now(s)
    case Done(start, stop, vals) => stop <= Now(s) && OfVersion(s.versions, start, stop, vals)
  }

  ghost predicate LockOk(s: State)
    requires s.versions != []
  {
    match s.lock
    case Free => true
    case Changing(_) => s.dirty
    case Refreshing(i, vals, stored) =>
      ListsValues(vals, Current(s)) && i < |s.readers| && s.readers[i].Wait? && (stored ==> s.snapshot == vals)
  }

  ghost predicate Inv(s: State)
  {
    && s.versions != []
    && (!s.dirty ==> ListsValues(s.snapshot, Current(s)))
    && LockOk(s)
    && forall i :: 0 <= i < |s.readers| ==> ReaderOk(s, s.readers[i])
  }

  lemma {:induction false} BeginKeeps(s: State)
    requires Inv(s)
    ensures Inv(Apply(s, Begin))
  {
    var s' := Apply(s, Begin);
    forall i | 0 <= i < |s'.readers| ensures ReaderOk(s', s'.readers[i]) {
      if i < |s.readers| {
        assert ReaderOk(s, s.readers[i]);
      }
    }
  }

  /** The current version is one since any reader began. */
  lemma {:induction false} CurrentIsOne(s: State, start: nat, vals: seq<string>)
    requires s.versions != [] && start <= Now(s) && ListsValues(vals, Current(s))
    ensures OfVersion(s.versions, start, Now(s), vals)
  {
    assert ListsValues(vals, s.versions[Now(s)]);
  }

  lemma {:induction false} TestKeeps(s: State, i: nat)
    requires Inv(s) && Enabled(s, TestFlag(i))
    ensures Inv(Apply(s, TestFlag(i)))
  {
    var s' := Apply(s, TestFlag(i));
    assert ReaderOk(s, s.readers[i]);
    if !s.dirty {
      CurrentIsOne(s, s.readers[i].start, s.snapshot);
    }
    forall j | 0 <= j < |s'.readers| ensures ReaderOk(s', s'.readers[j]) {
      assert ReaderOk(s, s.readers[j]);
    }
  }

  lemma {:induction false} LoadKeeps(s: State, i: nat)
    requires Inv(s) && Enabled(s, LoadSnapshot(i))
    ensures Inv(Apply(s, LoadSnapshot(i)))
  {
    var s' := Apply(s, LoadSnapshot(i));
    assert ReaderOk(s, s.readers[i]);
    forall j | 0 <= j < |s'.readers| ensures ReaderOk(s', s'.readers[j]) {
      assert ReaderOk(s, s.readers[j]);
    }
  }

  lemma {:induction false} CollectKeeps(s: State, i: nat, vals: seq<string>)
    requires Inv(s) && Enabled(s, Collect(i, vals))
    ensures Inv(Apply(s, Collect(i, vals)))
  {
    var s' := Apply(s, Collect(i, vals));
    forall j | 0 <= j < |s'.readers| ensures ReaderOk(s', s'.readers[j]) {
      assert ReaderOk(s, s.readers[j]);
    }
  }

  /** A new snapshot is of the current version, so a reader about to load finds a version since it began. */
  lemma {:induction false} StoreKeeps(s: State)
    requires Inv(s) && Enabled(s, Store)
    ensures Inv(Apply(s, Store))
  {
    var s' := Apply(s, Store);
    forall j | 0 <= j < |s'.readers| ensures ReaderOk(s', s'.readers[j]) {
      assert ReaderOk(s, s.readers[j]);
      if s.readers[j].Load? {
        CurrentIsOne(s', s.readers[j].start, s'.snapshot);
      }
    }
  }

  lemma {:induction false} CleanKeeps(s: State)
    requires Inv(s) && Enabled(s, Clean)
    ensures Inv(Apply(s, Clean))
  {
    var s', i := Apply(s, Clean), s.lock.i;
    assert ReaderOk(s, s.readers[i]);
    CurrentIsOne(s, s.readers[i].start, s.lock.vals);
    forall j | 0 <= j < |s'.readers| ensures ReaderOk(s', s'.readers[j]) {
      assert ReaderOk(s, s.readers[j]);
    }
  }

  lemma {:induction false} BeginChangeKeeps(s: State, e: Event)
    requires Inv(s) && Enabled(s, BeginChange(e))
    ensures Inv(Apply(s, BeginChange(e)))
  {
    var s' := Apply(s, BeginChange(e));
    forall j | 0 <= j < |s'.readers| ensures ReaderOk(s', s'.readers[j]) {
      assert ReaderOk(s, s.readers[j]);
    }
  }

  lemma {:induction false} MoreVersions(versions: seq<map<string, string>>, m: map<string, string>, from: nat, to: nat, vals: seq<string>)
    requires to < |versions| && OfVersion(versions, from, to, vals)
    ensures OfVersion(versions + [m], from, to, vals) && OfVersion(versions + [m], from, |versions|, vals)
  {
    var k :| from <= k <= to && ListsValues(vals, versions[k]);
    assert (versions + [m])[k] == versions[k];
  }

  lemma {:induction false} EndChangeKeeps(s: State)
    requires Inv(s) && Enabled(s, EndChange)
    ensures Inv(Apply(s, EndChange))
  {
    var s' := Apply(s, EndChange);
    var m := Do(Current(s), s.lock.event, s.exclusive);
    forall j | 0 <= j < |s'.readers| ensures ReaderOk(s', s'.readers[j]) {
      assert ReaderOk(s, s.readers[j]);
      match s.readers[j] {
        case Load(start) => MoreVersions(s.versions, m, start, Now(s), s.snapshot);
        case Done(start, stop, vals) => MoreVersions(s.versions, m, start, stop, vals);
        case Test(_) =>
        case Wait(_) =>
      }
    }
  }

  /** What every step of every interleaving keeps. */
  lemma {:induction false} StepKeepsInv(s: State, step: Step)
    requires Inv(s) && Enabled(s, step)
    ensures Inv(Apply(s, step))
  {
    match step {
      case Begin => BeginKeeps(s);
      case TestFlag(i) => TestKeeps(s, i);
      case LoadSnapshot(i) => LoadKeeps(s, i);
      case Collect(i, vals) => CollectKeeps(s, i, vals);
      case Store => StoreKeeps(s);
      case Clean => CleanKeeps(s);
      case BeginChange(e) => BeginChangeKeeps(s, e);
      case EndChange => EndChangeKeeps(s);
    }
  }

  // ------------------------------------------------------------------ whole runs

  /** A run of steps, the last one outermost. */
  datatype Run = Start | Then(before: Run, step: Step)

  ghost predicate ValidRun(exclusive: bool, run: Run)
  {
    run.Then? ==> ValidRun(exclusive, run.before) && Enabled(After(exclusive, run.before), run.step)
  }

  ghost function After(exclusive: bool, run: Run): (s: State)
  {
    match run
    case Start => Initial(exclusive)
    case Then(before, step) =>
      var s := After(exclusive, before);
      if Enabled(s, step) then Apply(s, step) else s
  }

  lemma {:induction false} RunKeepsInv(exclusive: bool, run: Run)
    requires ValidRun(exclusive, run)
    ensures Inv(After(exclusive, run))
  {
    match run {
      case Start =>
      case Then(before, step) =>
        RunKeepsInv(exclusive, before);
        StepKeepsInv(After(exclusive, before), step);
    }
  }

  /**
   In every interleaving of reads and changes, what a GetValues call returned is
   the values of one version of the mapping, and that version was the current one
   at some point between the call and its return.
   */
  lemma {:induction false} ReadsAreAtomic(exclusive: bool, run: Run, i: nat) returns (k: nat)
    requires ValidRun(exclusive, run) && i < |After(exclusive, run).readers| && After(exclusive, run).readers[i].Done?
    ensures var s := After(exclusive, run);
      var r := s.readers[i];
      r.start <= k <= r.stop < |s.versions| && ListsValues(r.vals, s.versions[k])
  {
    RunKeepsInv(exclusive, run);
    var s := After(exclusive, run);
    var r := s.readers[i];
    assert ReaderOk(s, r);
    k :| r.start <= k <= r.stop && ListsValues(r.vals, s.versions[k]);
  }

  /**
   What the snapshot is for: reader i, which found the flag set, stores what it
   collected and clears the flag; a reader j that comes after it, before the next
   change, returns the same values without the lock.
   */
  lemma {:induction false} CachedRead(s: State, i: nat, vals: seq<string>)
    requires Inv(s) && Enabled(s, Collect(i, vals))
    ensures var s1 := Apply(s, Collect(i, vals));
      && Enabled(s1, Store) && Enabled(Apply(s1, Store), Clean)
      && var s3, j := Apply(Apply(s1, Store), Clean), |s.readers|;
         && s3.readers[i] == Done(s.readers[i].start, Now(s), vals) && s3.versions == s.versions && s3.lock.Free?
         && var s4 := Apply(s3, Begin);
            && Enabled(s4, TestFlag(j)) && Enabled(Apply(s4, TestFlag(j)), LoadSnapshot(j))
            && Apply(Apply(s4, TestFlag(j)), LoadSnapshot(j)).readers[j] == Done(Now(s), Now(s), vals)
  {
  }

  /** A reader that finds the flag set has to wait for the lock; one that finds it clear has not. */
  lemma {:induction false} FlagDecides(s: State, i: nat)
    requires Enabled(s, TestFlag(i))
    ensures Apply(s, TestFlag(i)).readers[i].Wait? <==> s.dirty
    ensures !s.dirty ==> Enabled(Apply(s, TestFlag(i)), LoadSnapshot(i))
  {
  }

  /** The changes that a run carried out, in order. */
  function Changes(exclusive: bool, run: Run): (es: seq<Event>)
  {
    match run
    case Start => []
    case Then(before, step) =>
      if step.EndChange? then Changes(exclusive, before) + [LastChange(before)] else Changes(exclusive, before)
  }

  /** The change that began last. */
  function LastChange(run: Run): (e: Event)
  {
    match run
    case Start => Del("")
    case Then(before, step) => if step.BeginChange? then step.event else LastChange(before)
  }

  lemma {:induction false} LockStep(s: State, step: Step)
    requires Enabled(s, step) && Apply(s, step).lock.Changing?
    ensures if step.BeginChange? then Apply(s, step).lock.event == step.event else s.lock == Apply(s, step).lock
  {
  }

  lemma {:induction false} LockedChange(exclusive: bool, run: Run)
    requires ValidRun(exclusive, run) && After(exclusive, run).lock.Changing?
    ensures After(exclusive, run).lock.event == LastChange(run)
  {
    match run {
      case Start =>
      case Then(before, step) =>
        LockStep(After(exclusive, before), step);
        if !step.BeginChange? {
          LockedChange(exclusive, before);
        }
    }
  }

  lemma {:induction false} VersionStep(s: State, step: Step)
    requires Enabled(s, step)
    ensures Apply(s, step).exclusive == s.exclusive
    ensures Apply(s, step).versions
         == if step.EndChange? then s.versions + [Do(Current(s), s.lock.event, s.exclusive)] else s.versions
  {
  }

  lemma {:induction false} AfterAppend(es: seq<Event>, e: Event, n: nat, exclusive: bool)
    requires n <= |es|
    ensures Discovery.After(es + [e], n, exclusive) == Discovery.After(es, n, exclusive)
  {
    if n > 0 {
      AfterAppend(es, e, n - 1, exclusive);
    }
  }

  ghost predicate Registries(versions: seq<map<string, string>>, es: seq<Event>, exclusive: bool)
  {
    |versions| == |es| + 1 && forall n :: 0 <= n <= |es| ==> versions[n] == Discovery.After(es, n, exclusive)
  }

  lemma {:induction false} OneMoreRegistry(versions: seq<map<string, string>>, es: seq<Event>, e: Event, exclusive: bool)
    requires Registries(versions, es, exclusive)
    ensures Registries(versions + [Do(versions[|es|], e, exclusive)], es + [e], exclusive)
  {
    forall n | 0 <= n <= |es| ensures Discovery.After(es + [e], n, exclusive) == versions[n] {
      AfterAppend(es, e, n, exclusive);
    }
  }

  /** The versions are the registries after each change, so the newest one is the registry of all of them. */
  lemma {:induction false} VersionsAreRegistries(exclusive: bool, run: Run)
    requires ValidRun(exclusive, run)
    ensures After(exclusive, run).exclusive == exclusive
    ensures Registries(After(exclusive, run).versions, Changes(exclusive, run), exclusive)
  {
    match run {
      case Start =>
      case Then(before, step) =>
        VersionsAreRegistries(exclusive, before);
        var s := After(exclusive, before);
        VersionStep(s, step);
        if step.EndChange? {
          LockedChange(exclusive, before);
          OneMoreRegistry(s.versions, Changes(exclusive, before), s.lock.event, exclusive);
        }
    }
  }
}
