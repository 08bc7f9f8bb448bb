# Verified models of sdk-api

Models of the parts of sdk-api whose correctness depends on many steps, and
proofs of what they promise:

- **Periodical executor** (`Executor.dfy`, `ExecutorCalls.dfy`): adders, flush and
  wait callers and the self-terminating background flusher as an interleaved step
  machine, with the locked regions as methods. No task is lost, run twice or
  stranded, whatever the schedule, and the flusher ends when it should.
- **Timing wheel, its index and the cache** (`SafeMap.dfy`, `WheelClock.dfy`,
  `TimingWheel.dfy`, `Cache.dfy`): slots, circles and shifts refine a map from
  key to remaining ticks; the closed form of a move and exactly when it is on
  time; the LRU cache with expiry on top.
- **Rolling window and breaker** (`RollingWindow.dfy`, `Breaker.dfy`,
  `BreakerRuns.dfy`): the bucket ring agrees with the full log of events, the log
  with the run, and exactly when a request is rejected.
- **Consistent hash** (`HashPoints.dfy`, `ConsistentHash.dfy`, `HashRuns.dfy`,
  `HashRing.dfy`): the key list and the owner map agree with the members' points,
  over which interleavings of critical sections the keys stay exact, and minimal
  disruption after them.
- **SQL rewriter** (`SqlScan.dfy`, `SqlRewrite.dfy`, `SqlMeaning.dfy`,
  `SqlUpsert.dfy`, `SqlQuery.dfy`, `SqlInList.dfy`, `SqlCalls.dfy`,
  `SqlLiterals.dfy`, `SqlLeaks.dfy`, `SqlGrammar.dfy`, `SqlTranslation.dfy`,
  `SqlReading.dfy`, `SqlClauses.dfy`, `Decimal.dfy`): exactly when rewriting
  preserves meaning, when it commutes with the per-dialect generators, and what
  each database reads in the generated texts.
- **Migrator** (`Migrator.dfy`), **pagination** (`Pagination.dfy`), **job stores**
  (`JobStore.dfy`), **discovery container** (`Discovery.dfy`, `SnapshotReads.dfy`)
  and **line chunks** (`LineChunks.dfy`): invariants over whole runs, reads among
  concurrent changes, and partitions.

A property is proved of a reference (a step machine, a map from key to remaining
ticks, a log, a list of members, a text read by position, a prefix of migrations)
and each method of the imperative model is proved to compute the reference.

The clock, random draws, hash functions, the order in which a map is walked or an
engine picks rows, the effect of a statement, the point at which a database call
fails and whether a failed commit took effect are parameters, so each theorem is
about all of them. Floating point is modelled over the reals. An addition to the
rolling window and a PostgreSQL reap read the clock twice; every other operation
reads it once.

Where the code does not do what its names or comments suggest, the code is
modelled and the exact condition is proved:

- moving a timer is exact only under the condition of `WheelClock.MoveExactIff`
  (`infra/collection/timingwheel.go:212-220`);
- so a key that is set again in the cache may live a turn of the wheel more or
  less than asked (`infra/collection/cache.go:118-122`), `Caches.ResetExactIff`;
- `SetWithExpire` does not replace the value of a present key
  (`infra/collection/cache.go:108`), `Caches.FirstValueWins`;
- an expired key is deleted by a goroutine after the tick, so a Set in between is
  lost (`infra/collection/cache.go:61-68`), `Caches.SetSurvivesIff`;
- when an interval ends between the two clock readings of an addition, everything
  added before looks younger (`infra/collection/rollingwindow.go:93-109`),
  `RollingWindows.RollingWindow.UpdateOffset`;
- `Remove` walks all replica indices even for a node added with fewer
  (`infra/hash/consistenthash.go:144-153`), `ConsistentHashing.RemoveExactIff`;
- `AddWithReplicas` is two critical sections, so overlapping additions of one node
  leave keys behind when it is removed (`infra/hash/consistenthash.go:69-77`),
  `HashRuns.FullRunExactIff`;
- `Get` divides by zero when a removal took every key of the others
  (`infra/hash/consistenthash.go:103-110`), `HashRings.RemoveDividesByZeroIff`;
- the upsert translator looks for ON CONFLICT inside quoted literals as well
  (`db/query.go:184`), although literals should be left untouched
  (`db/query.go:46-47`), `SqlLiterals.QuotedKeywordIff`;
- a `?` in the unit of an interval literal becomes a mark for MySQL
  (`db/query.go:298`), `SqlMeaning.MySQLIntervalCleanIff`, and a mark before a
  placeholder takes its argument, `SqlQuery.RewriteMeaningIff`;
- SQLite gets a plus sign in front of an interval's amount and cannot read a
  negative one (`db/query.go:300`), `SqlReading.CallReadsIff`;
- a call whose name merely ends in now or gen_random_uuid is translated from there
  on (`db/query.go:115-138`), `SqlGrammar.NamedCall`;
- translating DO NOTHING drops what follows the clause (`db/query.go:213`),
  `SqlUpsert.UpsertCommutes`;
- an interval text does not read back when its unit is empty, has white space in
  it or ends in s (`db/query.go:360-371`), `SqlCalls.IntervalCommutesIff`;
- Down looks for a companion name of four digits and an underscore only
  (`db/migrations.go:243`), `Migrations.CompanionFoundIff`;
- a keyset page skips rows that tie with the last one of the page before
  (`db/pagination.go:132-135`), `Pagination.CursorsCoverAllIff`;
- the PostgreSQL reap compares deadlines strictly and the memory store does not
  (`runtime/async_store_pg.go:135`), `JobStores.AgreeIff`;
- splitting can fail on a file whose last line is unterminated
  (`infra/filex/lookup.go:95-97`), `LineChunks.SplitLineChunks`.

## Model

| member | source | states |
|---|---|---|
| Executor.StepKeepsInv | infra/executors/periodicalexecutor.go:65-201 | each step of the interleaved machine (add, spawn, send, receive, decrement, enter, confirm, execute, tick, take, quit test, taking and giving back the barrier) keeps batch sizes, task conservation, the counters and the watch on the container |
| Executor.RunKeepsInv | infra/executors/periodicalexecutor.go:65-201 | so does every run of enabled steps |
| Executor.NoTaskLostOrRepeated | infra/executors/periodicalexecutor.go:65-147 | after any interleaving, each task added occurs, with its multiplicity, in exactly one of container, a goroutine's hands, the commander and the executed batches |
| Executor.BatchesBounded | infra/executors/bulkexecutor.go:87-101 | in any interleaving an executed batch has between 1 and max(1, maxTasks) tasks |
| Executor.ProtocolCounters | infra/executors/periodicalexecutor.go:97-147 | in every reachable state inflight counts the batches removed and not received, implies guarded, guarded means exactly one live flusher, awaiting adders equal sent and unconfirmed batches, the barrier is held by exactly one Wait call or free, and a non-empty container is guarded or has a final Flush due |
| Executor.BarrierMoves | infra/executors/periodicalexecutor.go:89-95 | while a Wait call holds the barrier that enterExecution needs, it can leave or somebody it waits for can move |
| Executor.Progress | infra/executors/periodicalexecutor.go:89-157 | in every reachable state that is not at rest some goroutine can step without a tick, and the step brings rest closer: no deadlock |
| Executor.QuietStepWorks | infra/executors/periodicalexecutor.go:65-201 | every step but a new call or a tick lowers the work left, whoever takes it |
| Executor.EveryScheduleRests | infra/executors/periodicalexecutor.go:65-201 | from every reachable state every schedule without ticks and new calls is no longer than the work at its start, and when no step is left every Add, Flush and Wait has returned |
| Executor.EveryTickFinishes | infra/executors/periodicalexecutor.go:116-147 | at rest, after the next tick of a flusher every schedule comes to rest with an empty container and every task ever added executed exactly once; when the flusher ends is stated by `ExecutorCalls.EveryIdleTickQuits` |
| Executor.NothingStranded | infra/executors/periodicalexecutor.go:65-147 | from every reachable state the goroutines can go on alone until every call has returned and every task added has been executed exactly once |
| Executor.ZeroMeansAdding | infra/executors/periodicalexecutor.go:149-170 | with the wait group at zero the batches outside container and execution are as many as the Add calls that have not returned with a full batch |
| Executor.WaitGroupZero | infra/executors/periodicalexecutor.go:73-95 | whenever the wait group is at zero, which is when Wait returns, every task added was executed, is in the container, or is in the batch of an Add that has not returned; none is in such a batch if no such Add is in progress |
| ExecutorCalls.FlushReturns | infra/executors/periodicalexecutor.go:73-80 | a Flush call on its own takes the container, executes it unless it is empty, and returns |
| ExecutorCalls.WaitReturns | infra/executors/periodicalexecutor.go:90-95 | a Wait call on its own flushes, holds the barrier until nothing is being executed, and returns |
| ExecutorCalls.WaitHoldsOff | infra/executors/periodicalexecutor.go:90-95 | while Wait holds the barrier nobody enters an execution, and it leaves exactly when the wait group is at zero |
| ExecutorCalls.AddCollects | infra/executors/periodicalexecutor.go:97-114 | an Add below the limit leaves its task in the container and returns; the first one starts the flusher |
| ExecutorCalls.AddFills | infra/executors/periodicalexecutor.go:65-130 | the Add that fills the container: the flusher executes the whole batch in the order it was added, and the call returns once that batch is confirmed |
| ExecutorCalls.ReturnsOnlyConfirmed | infra/executors/periodicalexecutor.go:65-70 | an Add call with a full batch returns only by a confirmation |
| ExecutorCalls.TickAfterCommand | infra/executors/periodicalexecutor.go:132-134 | a tick after a command only clears the flag |
| ExecutorCalls.TickExecutes | infra/executors/periodicalexecutor.go:131-138 | a tick that finds tasks executes them and goes back to the select: the quit test is not reached |
| ExecutorCalls.GuardCleared | infra/executors/periodicalexecutor.go:187-201 | in every step the guard is cleared only by the quit test, after the idle period and with nothing in flight; any other test changes nothing |
| ExecutorCalls.QuitRun | infra/executors/periodicalexecutor.go:116-147 | at rest with an empty container, a tick, a flush of nothing, the passed test and the last flush of nothing are enabled in this order and end with the flusher exited, no live flusher and the guard cleared |
| ExecutorCalls.EveryIdleTickQuits | infra/executors/periodicalexecutor.go:116-201 | so does every schedule of that tick whose test finds the idle period over, once it rests |
| ExecutorCalls.EverythingEnds | infra/executors/periodicalexecutor.go:65-201 | from every reachable state the goroutines can go on alone until all have ended, the flusher too, with the guard cleared and every task executed exactly once |
| Executor.BulkContainer.AddTask | infra/executors/bulkexecutor.go:87-90 | appends, and reports whether the limit is reached |
| Executor.BulkContainer.RemoveAll | infra/executors/bulkexecutor.go:97-101 | hands out all tasks and leaves none |
| Executor.PeriodicalExecutor.AddAndCheck | infra/executors/periodicalexecutor.go:97-114 | the locked region is the machine's add step: batch, inflight, guarded and whether a flusher starts |
| Executor.PeriodicalExecutor.TakeAll | infra/executors/periodicalexecutor.go:73-80 | the locked part of Flush is the machine's take step |
| Executor.PeriodicalExecutor.ShallQuit | infra/executors/periodicalexecutor.go:187-201 | the locked region is the machine's quit test: guarded is cleared only when idle with nothing in flight |
| SafeMaps.SafeMap.Get | infra/collection/safemap.go:59-69 | two key-disjoint generations answer like one map |
| SafeMaps.SafeMap.Set | infra/collection/safemap.go:90-107 | the one map with the key set, in the older generation up to ten thousand deletions there and in the newer one beyond, the generations staying disjoint |
| SafeMaps.SafeMap.Del | infra/collection/safemap.go:33-56 | the one map without the key, whichever generation held it and whether or not a merge follows |
| SafeMaps.SafeMap.Take | infra/collection/safemap.go:37-43 | the key leaves its generation, which counts one more deletion |
| SafeMaps.SafeMap.Compact | infra/collection/safemap.go:44-55 | merging a generation changes nothing that can be read; an older generation with ten thousand deletions and under a thousand keys is merged, and a newer one never stays like that |
| SafeMaps.SafeMap.Size | infra/collection/safemap.go:110-115 | the number of keys of the one map |
| WheelClock.TargetExact | infra/collection/timingwheel.go:184-190 | the computed slot and circle stand for exactly s ticks from the hand, and circle > 0 exactly beyond one turn |
| WheelClock.StepsExact | infra/collection/timingwheel.go:184-190 | a delay is worth the whole intervals that fit it, and one below an interval |
| WheelClock.InsertExact | infra/collection/timingwheel.go:334-339 | a timer set for an absent key has exactly s ticks left |
| WheelClock.MoveClosedForm | infra/collection/timingwheel.go:212-229 | after a move worth s >= 1 ticks the entry is in shape, 0 <= diff < numSlots, and s, s + numSlots or s - numSlots ticks are left |
| WheelClock.MoveExactIff | infra/collection/timingwheel.go:212-229 | the move is exact if and only if slot and target lie on the same side of the hand, or the entry is re-inserted |
| WheelClock.MoveExactByArrival | infra/collection/timingwheel.go:212-229 | the same condition by arrival, for each of the three cases: which of the two slots the hand reaches first |
| WheelClock.MoveNotExact | infra/collection/timingwheel.go:212-220 | from an empty wheel of ten slots, set for 14 and moved to 3 after six ticks: 13 ticks are left |
| WheelClock.TickCountsDown | infra/collection/timingwheel.go:283-320 | a tick fires a timer exactly when one tick was left and otherwise takes one tick |
| WheelClock.DoKeepsOk | infra/collection/timingwheel.go:184-353 | set, move, remove and tick keep slots, circles and shifts in range |
| WheelClock.FiresOnTime | infra/collection/timingwheel.go:232-236 | over every run that leaves a key alone, its task runs at exactly the tick its remaining count says and at no other |
| WheelClock.SetFiresOnce | infra/collection/timingwheel.go:325-340 | set for an absent key, it runs once, exactly max(1, delay/interval) ticks later |
| WheelClock.RemovedNeverFires | infra/collection/timingwheel.go:238-247 | a removed key never runs until it is set again |
| WheelClock.MoveFiresOnce | infra/collection/timingwheel.go:198-230 | a moved key runs once, s ticks later up to the move error |
| WheelClock.DoRefinesCountdown | infra/collection/timingwheel.go:184-353 | every operation acts on the map from key to remaining ticks, off only by the move error |
| WheelClock.FreshRunRefines | infra/collection/timingwheel.go:232-353 | over every run of setting absent keys, removing and ticking, the wheel is that map |
| TimingWheels.Linked | infra/collection/timingwheel.go:334-339 | pushing a new entry keeps slots, entries and index consistent and puts the timer |
| TimingWheels.Unlinked | infra/collection/timingwheel.go:238-247 | marking an entry and dropping its key keeps them consistent and removes the timer |
| TimingWheels.EntryEdited | infra/collection/timingwheel.go:214-220 | rewriting circle and diff of a live entry keeps them consistent and retimes it |
| TimingWheels.Reinserted | infra/collection/timingwheel.go:221-228 | the re-insert case leaves one live entry, in the slot the index records |
| TimingWheels.Relinked | infra/collection/timingwheel.go:299-309 | shifting an entry to another slot's list keeps them consistent |
| TimingWheels.SweepRemoved | infra/collection/timingwheel.go:288-293 | sweeping a removed entry changes no timer |
| TimingWheels.SweepFired | infra/collection/timingwheel.go:312-319 | a fired entry leaves list and index together |
| TimingWheels.ScanStepKeeps | infra/collection/timingwheel.go:286-320 | each iteration of the scan visits one pending key as the tick prescribes, and no other |
| TimingWheels.TimingWheel.constructor | infra/collection/timingwheel.go:76-98 | an empty wheel with the hand before slot 0 |
| TimingWheels.TimingWheel.Create | infra/collection/timingwheel.go:66-73 | an error exactly for a non-positive interval or slot number or a missing callback, otherwise that empty wheel |
| TimingWheels.TimingWheel.SetTimerPosition | infra/collection/timingwheel.go:342-353 | the index maps the entry's key to the slot and entry |
| TimingWheels.TimingWheel.PushNew | infra/collection/timingwheel.go:335-338 | a new entry at the back of the slot's list, indexed |
| TimingWheels.TimingWheel.GetPositionAndCircle | infra/collection/timingwheel.go:184-190 | slot and circle of the clock's target, in range |
| TimingWheels.TimingWheel.Shift | infra/collection/timingwheel.go:214-220 | the in-place cases of a move retime the key and nothing else |
| TimingWheels.TimingWheel.Reinsert | infra/collection/timingwheel.go:221-229 | the default case links a new entry and leaves the old one as garbage |
| TimingWheels.TimingWheel.Retarget | infra/collection/timingwheel.go:213-229 | the three cases together are the clock's move |
| TimingWheels.TimingWheel.MoveTask | infra/collection/timingwheel.go:198-230 | absent key: nothing; under one interval: the task runs and the entry stays; otherwise the clock's move |
| TimingWheels.TimingWheel.SetTask | infra/collection/timingwheel.go:325-340 | the clock's set: a present key is given the value and moved, an absent one inserted, delays under one interval rounded up |
| TimingWheels.TimingWheel.RemoveTask | infra/collection/timingwheel.go:238-247 | the clock's remove |
| TimingWheels.TimingWheel.ScanOne | infra/collection/timingwheel.go:286-320 | one iteration of the scan is the step function the proofs are about |
| TimingWheels.TimingWheel.ScanAndRunTasks | infra/collection/timingwheel.go:283-323 | scanning the slot completes the clock's tick, and the tasks collected are exactly those that fire, once each |
| TimingWheels.TimingWheel.OnTick | infra/collection/timingwheel.go:232-236 | a tick of the wheel is the clock's tick, and runs exactly what fires |
| Caches.DoKeepsOk | infra/collection/cache.go:78-123 | every operation keeps data, recency list and timers in step, within the limit |
| Caches.NeverOverLimit | infra/collection/cache.go:239-253 | after any run a limited cache holds at most limit keys, and the recency list holds exactly the stored ones |
| Caches.TimersCoincide | infra/collection/cache.go:107-123 | with positive expiries, after any run, every stored key has a live timer or a deletion that a goroutine has still to make; once those are made the keys with a timer are exactly the stored keys |
| Caches.NoTimerForNonPositiveExpiry | infra/collection/cache.go:118-122 | a key stored with a non-positive expiry has no timer: the wheel refuses it |
| Caches.FirstValueWins | infra/collection/cache.go:107-123 | while a key stays present, reading it gives the value of the first Set since it was absent |
| Caches.RunStamped | infra/collection/cache.go:239-253 | the recency list is ordered by last touch after any run |
| Caches.EvictsLeastRecentlyUsed | infra/collection/cache.go:239-273 | after any run a Set on a full cache evicts exactly one key, the one touched longest ago |
| Caches.TickExpires | infra/collection/timingwheel.go:269-281 | a tick starts the deletion of a key exactly when its timer had one tick left, and stores and deletes nothing itself |
| Caches.FreshLifetime | infra/collection/cache.go:118-122 | a new key's timer has one tick below a second and expiry/second ticks from there on, rounded down |
| Caches.ResetLifetime | infra/collection/cache.go:107-123 | a stored key that is set again: its timer has expiry/second ticks plus the move error, under a second its deletion is started at once, without a timer or an expiry its lifetime stays |
| Caches.SetSurvivesIff | infra/collection/cache.go:107-123 | a key that is set survives the deletions under way if and only if none is under way for it and it did not have a timer and get less than a second |
| Caches.SetAgainLost | infra/collection/cache.go:61-68 | the input: a key set for a second, a tick, the key set again with any expiry before the deletion: the deletion still takes it |
| Caches.SettlesInAnyOrder | infra/collection/timingwheel.go:269-281 | the deletions under way have the same outcome in every order |
| Caches.ResetExactIff | infra/collection/cache.go:118-122 | the new lifetime is the one asked for if and only if old and new slot lie on the same side of the hand, or the old slot is ahead and the expiry fits one turn |
| Caches.ResetDropsEarly | infra/collection/cache.go:118-122 | with a constant expiry of 450 s a key set after 141 s and again ten seconds later has 150 s left |
| Caches.LivesUntilExpiry | infra/collection/cache.go:61-68 | over any run of calls that neither set nor delete a key, with deletions at any time, it is gone or being deleted once its ticks are used up; without a limit it is stored, with no deletion under way, exactly until then |
| Caches.Cache.OnEvict | infra/collection/cache.go:176-181 | value and timer go together |
| Caches.Cache.RemoveOldest | infra/collection/cache.go:261-273 | the last key of the list leaves list, element index, data and wheel |
| Caches.Cache.LruAdd | infra/collection/cache.go:239-253 | to the front, evicting the back when over the limit, its key leaving the element index, with all that eviction removes |
| Caches.Cache.LruRemove | infra/collection/cache.go:255-273 | out of list and map, with the eviction callback |
| Caches.Cache.Del | infra/collection/cache.go:78-87 | the key is gone from data, list and wheel |
| Caches.Cache.Get | infra/collection/cache.go:165-174 | the stored value, and a hit touches the key |
| Caches.Cache.SetWithExpire | infra/collection/cache.go:107-123 | a present key keeps its value and has its timer moved, an absent one is stored with a timer |
| Caches.Cache.MoveExpiry | infra/collection/timingwheel.go:198-210 | a move is the reference move; a delay under an interval starts the deletion of a key that has a timer |
| Caches.Cache.RunTasks | infra/collection/timingwheel.go:269-281 | the deletion of the key of every task is started, nothing else changes |
| Caches.Cache.DeleteExpired | infra/collection/cache.go:61-68 | the expiry callback deletes the key of a started task from data, list and wheel |
| Caches.Cache.OnTick | infra/collection/timingwheel.go:232-236 | a tick starts the deletion of exactly the keys that expire, each once |
| RollingWindows.AdvanceAgrees | infra/collection/rollingwindow.go:93-109 | resetting the skipped buckets makes the ring agree with the log at a later interval |
| RollingWindows.AddAgrees | infra/collection/rollingwindow.go:58-63 | adding to the current bucket is adding to the log |
| RollingWindows.ShiftAgrees | infra/collection/rollingwindow.go:93-109 | a ring whose current interval is set k later agrees with the log filed k intervals later |
| RollingWindows.SinceLast | infra/collection/rollingwindow.go:84-109 | time since the aligned lastTime counts the same intervals as time since the start, and alignment lands on an interval boundary |
| RollingWindows.SlotExactly | infra/collection/rollingwindow.go:84-91 | a time is in interval i if and only if it lies from start + i * interval to start + (i + 1) * interval |
| RollingWindows.VisitAgrees | infra/collection/rollingwindow.go:147-151 | the i-th bucket a reduction visits is that of the i-th interval of the window |
| RollingWindows.ReduceAgrees | infra/collection/rollingwindow.go:66-82 | the visited buckets hold exactly the events of the window's intervals, in order |
| RollingWindows.RollingWindow.constructor | infra/collection/rollingwindow.go:38-55 | an empty ring that agrees with the empty log |
| RollingWindows.RollingWindow.Span | infra/collection/rollingwindow.go:84-91 | whole intervals since the last one, capped at size |
| RollingWindows.RollingWindow.ResetAhead | infra/collection/rollingwindow.go:99-103 | exactly the span buckets ahead are emptied |
| RollingWindows.RollingWindow.UpdateOffset | infra/collection/rollingwindow.go:93-109 | for any two clock readings the ring agrees with the log, filed later by exactly the intervals that ended between the readings; with none the log is unchanged and on time |
| RollingWindows.RollingWindow.Add | infra/collection/rollingwindow.go:58-63 | the ring agrees with that log extended by the event in its own interval |
| RollingWindows.RollingWindow.ReduceFrom | infra/collection/rollingwindow.go:147-151 | count buckets from a start, around the ring |
| RollingWindows.RollingWindow.Reduce | infra/collection/rollingwindow.go:66-82 | exactly the events of the last size intervals, without the current one when ignoreCurrent is set |
| Breakers.TallyIsBag | infra/breaker/bucket.go:17-48 | adding outcomes one by one gives the size of their bag, the multiplicity of failures and of drops in it, and the rest as successes |
| Breakers.BucketCounts | infra/breaker/bucket.go:17-48 | every bucket of the window holds these counts of the bag of its interval's outcomes, so Sum = Success + Failure + Drop |
| Breakers.PartialNext | infra/breaker/googlebreaker.go:140-149 | the callback adds one interval's counts, and one failing or working bucket, to the history |
| Breakers.HistoryCounts | infra/breaker/googlebreaker.go:137-152 | total and accepts of a history are those of the bag of the window's outcomes |
| Breakers.WeightExactly | infra/breaker/googlebreaker.go:60-61 | with f of 40 buckets failing an accept weighs 1.5 - f/100 |
| Breakers.OverloadExactly | infra/breaker/googlebreaker.go:60-67 | the drop ratio is positive if and only if 100 (total - 5) > (150 - failing) accepts |
| Breakers.OverloadNeedsFailures | infra/breaker/googlebreaker.go:60-67 | a positive drop ratio implies failures + drops > 5 + accepts/10 |
| Breakers.LastPassIsLatest | infra/breaker/googlebreaker.go:69-83 | lastPass is always the time of the latest overload-zone pass, zero while there is none |
| Breakers.RejectionJustified | infra/breaker/googlebreaker.go:55-95 | in every run a rejection without manual open saw, in the bag of the window's outcomes, failures + drops > 5 + others/10, and no overload-zone pass was recorded or the last is at most one second old |
| Breakers.OnePassPerSecond | infra/breaker/googlebreaker.go:69-73 | under overload, more than a second after the latest overload-zone pass a request is let through whatever the draw |
| Breakers.HealthyNeverRejected | infra/breaker/googlebreaker.go:59-67 | with at most five failures and drops in the window nothing is rejected |
| Breakers.WindowSpan | infra/breaker/googlebreaker.go:13-21 | an outcome counts for 9.75 seconds at least and never after ten |
| Breakers.RejectedIff | infra/breaker/googlebreaker.go:55-84 | in every state a request is rejected if and only if the breaker is forced open, or no forced pass is due, 100 (total - 5) > (150 - failing) others, and draw * 4000 (total + 1) is less than that excess times (40 - working), with total and others from the bag of the window and failing and working as sets of intervals |
| Breakers.RunRejectedIff | infra/breaker/googlebreaker.go:55-84 | the same in every run, a forced pass being due when the latest overload-zone pass is more than a second old |
| BreakerRuns.LogCounts | infra/breaker/googlebreaker.go:86-135 | in every run of a new breaker the outcomes of any intervals are exactly the failures and successes reported and the requests rejected in them, each once |
| BreakerRuns.SwitchDecides | infra/breaker/googlebreaker.go:56-58 | in every run the breaker is forced open exactly while the last use of the switch forced it open, and then rejects everything |
| Breakers.GoogleBreaker.Accumulate | infra/breaker/googlebreaker.go:140-149 | accumulating over the visited buckets gives the history of their intervals |
| Breakers.GoogleBreaker.History | infra/breaker/googlebreaker.go:137-152 | the counts of the window's events, from the ring |
| Breakers.GoogleBreaker.Accept | infra/breaker/googlebreaker.go:55-84 | decision and lastPass as a function of the event log, the clock and the draw |
| Breakers.GoogleBreaker.Allow | infra/breaker/googlebreaker.go:86-95 | the decision, a rejection being logged as a drop |
| Breakers.GoogleBreaker.IsOpen | infra/breaker/googlebreaker.go:166-168 | the same decision, nothing logged |
| Breakers.GoogleBreaker.Mark | infra/breaker/googlebreaker.go:129-135 | the report joins the log |
| Breakers.GoogleBreaker.SetManual | infra/breaker/googlebreaker.go:170-176 | only the manual switch changes |
| HashPoints.PointsKept | infra/hash/consistenthash.go:144-153 | dropping a member drops exactly its points, in order |
| ConsistentHashing.RemoveMovesNothingElse | infra/hash/consistenthash.go:134-172 | with collision-free points, dropping a node's points leaves every value that lived elsewhere where it was |
| ConsistentHashing.AddMovesOnlyToNew | infra/hash/consistenthash.go:68-87 | with collision-free points, a new node's points draw values only to it |
| ConsistentHashing.LivesAtUnique | infra/hash/consistenthash.go:99-131 | the points determine where a value lives |
| ConsistentHashing.PickCounts | infra/hash/consistenthash.go:118-129 | among the owners of a point the inner hash counts through all of them, around and around |
| ConsistentHashing.SortedUnique | infra/hash/consistenthash.go:86-86 | a sorted key list is determined by its multiset |
| ConsistentHashing.RemoveExactIff | infra/hash/consistenthash.go:144-153 | for a member with any replica count, Remove leaves the right keys if and only if its unused points hit no other node's |
| ConsistentHashing.PartialReplicasLoseKeys | infra/hash/consistenthash.go:144-153 | colliding hashes and half the replicas: removing one of two nodes takes every key while the other still owns points |
| HashRuns.FullRunKeys | infra/hash/consistenthash.go:68-156 | over every interleaving of critical sections with full replicas, however the hashes collide, the keys are the multiset of all live points and one stale set for each surplus copy a removal found |
| HashRuns.FullRunExactIff | infra/hash/consistenthash.go:68-156 | so the keys are the live points if and only if no removal found its node registered more than once |
| HashRuns.OverlappingAdds | infra/hash/consistenthash.go:68-87 | two overlapping additions of a node and its removal leave its keys without an owner |
| HashRuns.WholeAddIsFresh | infra/hash/consistenthash.go:68-77 | an addition with no other caller between its two critical sections appends to a ring without the node |
| HashRuns.FullRunExact | infra/hash/consistenthash.go:68-156 | hence runs whose appends find their nodes absent are exact with full replicas |
| HashRuns.CollisionFreeRunExact | infra/hash/consistenthash.go:68-156 | and with any replica counts on names whose points do not collide |
| HashRuns.NamesCollisionFree | infra/hash/consistenthash.go:80-84 | members with such names have points that do not collide |
| HashRuns.RunRemoveMovesNothingElse | infra/hash/consistenthash.go:99-172 | after any such run a further Remove leaves the keys exact and every value that lived elsewhere where it was |
| HashRuns.RunAddMovesOnlyToNew | infra/hash/consistenthash.go:68-131 | after any such run appending an absent node leaves the keys exact and moves values only to it |
| HashRuns.AddThenRemoveRestores | infra/hash/consistenthash.go:68-156 | appending and removing an absent node restores the members always, and the keys if and only if its unused points hit no other |
| HashRuns.AdditionAdds | infra/hash/consistenthash.go:68-87 | after an addition the node owns as many points as asked for, at most all and none for a negative number, the i-th at the hash of its name followed by i; the keys grew by exactly these hashes over the ring without it, and the other nodes' points are as they were |
| HashRuns.WeightOwns | infra/hash/consistenthash.go:91-96 | a node added with a weight owns that percentage of the replicas, rounded down, all from 100 on and none below 1 |
| HashRings.RemovedFromRing | infra/hash/consistenthash.go:158-172 | filtering the lists under the node's hashes removes exactly its ownership |
| HashRings.IndexIsClockwise | infra/hash/consistenthash.go:107-112 | the search index, wrapped, is the clockwise successor point and has an owner |
| HashRings.RemoveDividesByZeroIff | infra/hash/consistenthash.go:103-156 | after removing a member from an exact ring Get divides by zero if and only if the others have points and the removed one's unused points cover them all |
| HashRings.FullRunNeverDividesByZero | infra/hash/consistenthash.go:103-156 | with full replicas it does so after no interleaving |
| HashRings.SameMembersSameRing | infra/hash/consistenthash.go:26-33 | keys and owner map are determined by the members, so a restored member list is a restored ring |
| HashRings.ConsistentHash.Search | infra/hash/consistenthash.go:108-110 | the first index whose key is at least the hash |
| HashRings.ConsistentHash.RemoveKey | infra/hash/consistenthash.go:146-151 | one occurrence of the hash leaves the sorted keys, if there is one |
| HashRings.ConsistentHash.WithoutNode | infra/hash/consistenthash.go:160-165 | the in-place filter keeps the other nodes in order |
| HashRings.ConsistentHash.RemoveRingNode | infra/hash/consistenthash.go:158-172 | only the list under the hash changes, and no empty list stays |
| HashRings.ConsistentHash.RemovePoints | infra/hash/consistenthash.go:144-153 | the loop takes all replica hashes from the keys and the node from their lists |
| HashRings.ConsistentHash.Remove | infra/hash/consistenthash.go:134-156 | members, keys and owner map after a removal, nothing for an unknown node |
| HashRings.ConsistentHash.AddPoints | infra/hash/consistenthash.go:80-84 | the loop adds the node's hashes and ownership |
| HashRings.ConsistentHash.Append | infra/hash/consistenthash.go:75-86 | the second critical section: one more member with its points, keys sorted again, whether or not the node is there |
| HashRings.ConsistentHash.AddWithReplicas | infra/hash/consistenthash.go:68-87 | both critical sections in a row: the former registration goes, the new one comes with its replicas truncated |
| HashRings.ConsistentHash.AddWithWeight | infra/hash/consistenthash.go:91-96 | the addition with the weight's share of the replicas |
| HashRings.ConsistentHash.OwnerAt | infra/hash/consistenthash.go:112-130 | the only owner, one of several by the inner hash, or none |
| HashRings.ConsistentHash.Get | infra/hash/consistenthash.go:99-131 | a division by zero exactly for a ring with points and no keys; otherwise what owns the first key clockwise, a live member or nothing; with exact keys the owner of the clockwise successor point |
| Decimal.AtoiItoa | db/query.go:103-111 | parsing a rendered placeholder number gives it back |
| Decimal.DecimalDigits | infra/hash/consistenthash.go:81-81 | the rendering of 10 n + d is that of n followed by the d-th digit |
| SqlRewrite.SkipSpace | db/query.go:158-163 | the end of the run of spaces |
| SqlRewrite.ReadQuoted | db/query.go:165-177 | the literal up to its closing quote, or nothing |
| SqlRewrite.ReadCall | db/query.go:254-270 | the closing parenthesis of an empty call, or nothing |
| SqlRewrite.ReadIdent | db/query.go:119-122 | the end of the identifier |
| SqlRewrite.ReadAfterPlus | db/query.go:146-151 | where a literal should open after the word interval |
| SqlRewrite.ReadLiteralStart | db/query.go:141-151 | where the literal after `+ interval` should open |
| SqlRewrite.ReadInterval | db/query.go:141-156 | the interval literal after a call of now() |
| SqlRewrite.ReadFunction | db/query.go:115-138 | the call at a position, in any letter case, also at an identifier's suffix |
| SqlRewrite.ReadPlaceholder | db/query.go:99-112 | an in-range `$n` and where it ends |
| SqlRewrite.ReadToken | db/query.go:59-88 | one iteration's case analysis: quotes, escaped quotes, placeholders, calls, characters |
| SqlRewrite.WriteToken | db/query.go:75-87 | one iteration extends text and arguments by the token's own |
| SqlRewrite.RewriteLoop | db/query.go:55-94 | the loop writes every token in order and collects the arguments in order of their placeholders |
| SqlRewrite.BindsAlikeIff | db/query.go:55-94 | reading the written text by position gives back what the tokens meant by number if and only if no stray mark is written while an argument is still to come |
| SqlMeaning.FunctionSpan | db/query.go:115-156 | a translated call spans an even number of quotes |
| SqlMeaning.TokensWellQuoted | db/query.go:59-88 | the loop's quote flag is the parity of the quotes before, and each token fits its side |
| SqlMeaning.SQLiteIntervalClean | db/query.go:294-300 | for SQLite any interval literal translates to text with balanced quotes and no stray mark |
| SqlMeaning.MySQLIntervalCleanIff | db/query.go:294-298 | for MySQL an interval literal does so if and only if its unit holds no `?` |
| SqlMeaning.CallCleanIff | db/query.go:115-156 | hence every call for SQLite, and for MySQL exactly the calls whose literal leaks no mark |
| SqlMeaning.Unexposed | db/query.go:59-88 | with no `?` outside quotes and none leaking, no stray mark is written |
| SqlQuery.Rewrite | db/query.go:48-95 | PostgreSQL is a no-op; MySQL translates the upsert first; without placeholders the arguments come back as they were; what the result means is stated by `SqlQuery.RewriteMeaningIff`, `SqlGrammar.PlaceholderIff` and `SqlGrammar.CallIff` and `SqlReading.QueryCallReadsIff` |
| SqlQuery.TokensMeaning | db/query.go:59-88 | the tokens mean what the query's text means, read by quote parity |
| SqlQuery.RewriteMeaningIff | db/query.go:48-95 | for every query and dialect, the k-th `?` of the result bound to the k-th argument gives what the query the loop reads meant with `$n` if and only if no `?` outside quotes, its own or leaked, comes before an argument; for MySQL that query is the one after the upsert translation |
| SqlQuery.SQLitePreservesMeaning | db/query.go:48-95 | for SQLite the absence of `?` outside quotes suffices for the source query |
| SqlQuery.MySQLPreservesMeaning | db/query.go:48-95 | for MySQL, with no `?` in an interval unit either, for every source query that the upsert translator leaves alone |
| SqlQuery.PlainQueryPreserved | db/query.go:48-112 | for every positional dialect, with no `?` outside quotes, no call and no ON CONFLICT |
| SqlQuery.PlainPiecesAt | db/query.go:75-87 | where there is no call, a position means the value of an in-range placeholder outside quotes or its own character |
| SqlQuery.PassedThrough | db/query.go:48-95 | with neither placeholder nor call outside quotes, text and arguments come back unchanged, for MySQL after the upsert translation |
| SqlQuery.ArgumentsUnchanged | db/query.go:89-93 | with no placeholder the arguments come back unchanged, calls or not |
| SqlQuery.ReadFirstColumn | db/query.go:223-237 | the first name inside the first parentheses |
| SqlQuery.ReadParens | db/query.go:192-201 | the position after the matching parenthesis |
| SqlQuery.TranslateMySQLUpsert | db/query.go:183-220 | the translated statement, or the statement itself when there is nothing to translate |
| SqlUpsert.KeywordFound | db/query.go:184-188 | the clause's keyword is found right after a head without one, and no overlap makes an earlier match |
| SqlUpsert.TranslatedShape | db/query.go:183-220 | a query that meets the guard keeps what stands before the keyword and goes on with ON DUPLICATE KEY UPDATE |
| SqlUpsert.FirstOfList | db/query.go:223-237 | the first name of a joined column list |
| SqlUpsert.ListTaken | db/query.go:191-206 | the generated column list is skipped and its first name becomes the column |
| SqlUpsert.ReplaceSets | db/query.go:179-216 | replacing EXCLUDED.name in the generated assignments gives the other dialect's assignments, whatever follows them |
| SqlUpsert.JoinAssignments | db/query.go:329-342 | the assignment loop and its join |
| SqlUpsert.WriteUpsertClause | db/query.go:323-343 | the clause of either dialect; a MySQL clause needs a column to name |
| SqlUpsert.UpsertCommutes | db/query.go:183-343 | for all identifier lists, heads without `on conflict` and tails, translating head + the PostgreSQL clause + tail gives head + the MySQL clause, followed by nothing after DO NOTHING and by the tail with its EXCLUDED names replaced after DO UPDATE SET |
| SqlInLists.InList | db/query.go:308-319 | the list with its placeholders and the values as arguments, `1 = 0` for no values |
| SqlInLists.MarkTaken | db/query.go:99-112 | a rendered `$n` reads back as n, ending at its last digit |
| SqlInLists.InListCommutes | db/query.go:308-319 | for every dialect, value list and column expression with closed quotes, no placeholder or call outside them and no ON CONFLICT, rewriting the PostgreSQL list gives the dialect's list with the same arguments |
| SqlInLists.NamesAreColumns | db/query.go:306-319 | plain, qualified and double-quoted names are such expressions |
| SqlCalls.AmountReadBack | db/query.go:360-371 | the rendering of an amount and a one-word unit without a final s reads back as the two |
| SqlCalls.IntervalTokens | db/query.go:115-156 | the generated PostgreSQL interval expression is read as one call with its literal inside parentheses |
| SqlCalls.ReadBackIff | db/query.go:360-371 | the parsed amount and unit of a text read back from their rendering if the unit is one word without a final s, and otherwise as something of another length |
| SqlCalls.IntervalCommutesIff | db/query.go:294-304 | for every interval text without a quote, rewriting what AddInterval generates for PostgreSQL gives what it generates for the dialect, in parentheses, if and only if the unit is such a word |
| SqlCalls.NowCommutes | db/query.go:281-290 | rewriting the PostgreSQL expression for the current time gives the dialect's |
| SqlCalls.RandomUUIDCommutes | db/query.go:240-249 | rewriting the PostgreSQL expression for a random identifier gives the dialect's |
| SqlGrammar.PlaceholderIff | db/query.go:99-112 | a placeholder is taken if and only if a dollar sign and all the digits after it make the number of an argument |
| SqlGrammar.EmptyCallIff | db/query.go:254-270 | a call is matched if and only if parentheses follow with nothing but spaces before and between them |
| SqlGrammar.IntervalIff | db/query.go:141-177 | an interval is taken if and only if a plus sign, the word interval in any letter case and a closed literal follow, with spaces allowed between |
| SqlGrammar.CallIff | db/query.go:115-138 | a call is taken if and only if an identifier that is now or gen_random_uuid in any letter case stands there with empty parentheses, with the interval after now() if there is one |
| SqlGrammar.NamedCall | db/query.go:59-138 | for every identifier, its call without arguments comes back unchanged if the name does not end in now or gen_random_uuid in any letter case, and otherwise with that end replaced by the dialect's expression |
| SqlGrammar.NumberReads | db/query.go:365-369 | a number with or without a sign is read exactly when it fits 64 bits |
| SqlGrammar.FieldsAreWords | db/query.go:361-361 | the words of a text are all of it but the white space, in order |
| SqlReading.TimeReads | db/query.go:281-290 | each database reads its current-time expression as the current time |
| SqlReading.IdReads | db/query.go:240-249 | each database reads its random-identifier expression as a random identifier |
| SqlReading.IntervalReads | db/query.go:294-304 | for every base without the separator's first character and every interval text without a quote, each database reads the base, the text's own amount and its unit; SQLite reads nothing for a negative amount |
| SqlReading.CallReadsIff | db/query.go:115-156 | for every dialect and call the expression reads as what the call means if and only if it is not SQLite with a negative amount, which reads as nothing |
| SqlReading.QueryCallReadsIff | db/query.go:115-156 | the same for every call standing anywhere in a query |
| SqlReading.LiteralSays | db/query.go:360-371 | a number and a unit, singular or plural, in any letter case: the number and the singular in lower case |
| SqlReading.WordSays | db/query.go:360-364 | a single word means one of its unit |
| SqlReading.RewrittenIntervalReads | db/query.go:141-156 | rewriting `(now() + interval 'N unit')` gives, in parentheses, what the target database reads as N of that unit from now, for every 64-bit N but negative ones in SQLite |
| SqlReading.NegativeUnread | db/query.go:299-300 | the input: an interval of -1 days becomes `+-1 day` for SQLite |
| SqlClauses.ItemsOfJoin | db/query.go:318-318 | splitting a joined list gives the list back |
| SqlClauses.InListReads | db/query.go:308-319 | for every column expression without the keyword, the list is read as that column and the arguments 1 to n |
| SqlClauses.InListSelects | db/query.go:308-319 | in every dialect the condition selects exactly the rows whose column has one of the values, none for no values |
| SqlClauses.DuplicateReads | db/query.go:324-334 | the MySQL clause is read as overwriting each column with its own proposed value, or, with nothing to overwrite, as setting the first conflict column to itself |
| SqlClauses.ConflictReads | db/query.go:335-342 | the other dialects' clause is read as naming the conflict columns and overwriting each column with its own proposed value, or nothing |
| SqlTranslation.TrimmedSpace | db/query.go:215-236 | white space around a text is taken off and no more |
| SqlTranslation.UnquotedName | db/query.go:236-236 | backticks and double quotes around a name are taken off and no more |
| SqlTranslation.FirstColumnIs | db/query.go:223-237 | the first column is the bare name up to the first comma or closing parenthesis after the first opening one |
| SqlTranslation.ParenMatches | db/query.go:192-201 | the column list ends at the parenthesis that closes the first one, nested ones counted |
| SqlTranslation.NothingReplaced | db/query.go:179-216 | text without an EXCLUDED name is left alone |
| SqlTranslation.FirstReplaced | db/query.go:179-216 | the first EXCLUDED name, the longest there, becomes VALUES(name), and so on after it |
| SqlTranslation.ClauseAnyCase | db/query.go:183-206 | the keyword is found in any letter case, with any spaces after it; what stands after the optional column list decides, with the list's column or else the head's |
| SqlTranslation.ListSkipped | db/query.go:191-206 | a column list is skipped with the spaces after it, and its first column, if any, is used |
| SqlTranslation.NothingAnyCase | db/query.go:209-213 | DO NOTHING in any letter case sets the column to itself, or changes nothing without a column |
| SqlTranslation.UpdateAnyCase | db/query.go:214-216 | DO UPDATE SET in any letter case keeps the trimmed assignments with their EXCLUDED names replaced |
| SqlLiterals.TokenSame | db/query.go:97-177 | two queries that agree up to a quote read the same tokens up to it, unless the quote opens an interval literal |
| SqlLiterals.LiteralDestroyed | db/query.go:46-54 | a quoted literal, not an interval's, that holds the first ON CONFLICT loses its meaning for MySQL whenever the translator's guard is met |
| SqlLiterals.QuotedKeywordIff | db/query.go:48-95 | for MySQL and every query whose first ON CONFLICT, if any, is inside such a literal, the result means what the source query meant if and only if the guard is not met and no stray mark comes before an argument |
| SqlLiterals.QuotedKeywordPreservedIff | db/query.go:183-220 | without stray marks the guard alone decides: the text after the keyword and its column list, and whether a column is found |
| SqlLeaks.RestTaken | db/query.go:209-213 | DO NOTHING with a column found in the head takes everything after it away, the end of a literal included |
| SqlLeaks.ConflictLiteralDestroyed | db/query.go:183-220 | the statement (a)'ON CONFLICT DO NOTHING' loses its literal and its closing quote, whatever the arguments |
| SqlLeaks.LeakedMark | db/query.go:292-298 | now() + interval with a `?` in the unit, and `$1` after it: the argument is bound inside the interval |
| SqlLeaks.FiveMarks | db/query.go:292-298 | so at now() + interval '5 ?', $1 |
| SqlLeaks.IntervalKeywordPreserved | db/query.go:141-220 | an ON CONFLICT DO UPDATE SET inside an interval literal is translated, yet only the last word counts and the meaning stays |
| Migrations.UpNameReads | db/migrations.go:68-82 | a file named by a padded 64-bit version, either separator and a title is read as that version and title |
| Migrations.DownNameIgnored | db/migrations.go:72-76 | the companion file Down looks for is never taken for a migration |
| Migrations.ReadVersion | db/migrations.go:295-306 | the digit loop in wrapping 64-bit arithmetic is the number modulo 2^64, as a signed integer |
| Migrations.NameReadIff | db/migrations.go:68-82 | a file is read as an up file of a version and title if and only if its name is digits of that 64-bit value, a separator, the title, not ending in .down, and .sql |
| Migrations.CompanionFoundIff | db/migrations.go:243-247 | Down finds the companion of an up file's own stem if and only if its version is written as %04d writes it and followed by an underscore |
| Migrations.LoadMigrations | db/migrations.go:62-98 | loading succeeds if and only if no two up files share a 64-bit version and all can be read; the result is strictly sorted and holds exactly the up files; a duplicate names both files, a failure the unreadable one |
| Migrations.LoadedContents | db/migrations.go:83-96 | every readable up file is loaded with the version and title of its name and the statements and checksum of its text |
| Migrations.UpKeepsPrefix | db/migrations.go:172-194 | Up from any applied prefix, with a failure at any call, ends at a longer or equal prefix with the schema its fold, reports the versions between, save one whose failed commit took effect, and succeeds only at the whole list |
| Migrations.UpCompletes | db/migrations.go:172-194 | with no failure Up applies everything that is left |
| Migrations.SecondUpNoOp | db/migrations.go:172-194 | after a successful Up another one reports nothing and changes nothing |
| Migrations.DownKeepsPrefix | db/migrations.go:224-265 | Down shortens the prefix by one and reports its version, or changes nothing, save a failed commit that took effect; a missing companion file is an error; an empty table is not |
| Migrations.AlwaysAPrefix | db/migrations.go:172-265 | after any run of Up and Down, failing anywhere, with failed commits that took effect or not, the applied set is a prefix and the schema the fold of exactly its up scripts |
| Migrations.ChangedFileStops | db/migrations.go:181-187 | a recorded migration whose file changed stops Up before it, on any control table |
| Migrations.StatusPredictsUp | db/migrations.go:148-194 | on any control table, if no call fails, Up succeeds exactly when Status flags no migration as modified |
| Migrations.StatusTellsPending | db/migrations.go:148-194 | on any control table a successful Up runs exactly the migrations Status does not flag as applied, in order |
| Migrations.StatusOfPrefix | db/migrations.go:148-166 | at prefix k Status flags exactly the first k as applied and none as modified |
| Migrations.RunsInOrder | db/migrations.go:205-209 | a script of one statement has its effect, and a script in two parts runs the first part first |
| Migrations.PrefixRunsInOrder | db/migrations.go:172-219 | the schema of a prefix is what its statements make, one by one, in the order of the files |
| Migrations.Migrator.Execute | db/migrations.go:205-209 | the statements in order inside the transaction, stopping at the first failure; the order is that of `Migrations.RunsInOrder` |
| Migrations.Migrator.Transact | db/migrations.go:199-214 | begin, statements and record on a copy, stopping at the first failure |
| Migrations.Migrator.Commit | db/migrations.go:215-217 | the copy is installed, or a failed commit installs it or not |
| Migrations.Migrator.ApplyOne | db/migrations.go:198-219 | schema and record change together or not at all, also when a failed commit took effect |
| Migrations.Migrator.ReadApplied | db/migrations.go:114-144 | the control table, or a failure of either call |
| Migrations.Migrator.Up | db/migrations.go:172-194 | the loop is the reference Up: database, versions reported, outcome |
| Migrations.Migrator.Down | db/migrations.go:224-247 | the loop is the reference Down: the highest applied migration, its companion, outcome |
| Migrations.Migrator.RollBack | db/migrations.go:248-264 | schema and record change together or not at all, also when a failed commit took effect |
| Migrations.Migrator.ReportStatus | db/migrations.go:148-166 | applied and modified flags of every migration against the table |
| Pagination.QueryKeyset | db/pagination.go:107-178 | an unknown column is an error; otherwise the page of the selected rows after the cursor and the next cursor, by the column asked for or the primary key, ten rows by default |
| Pagination.QueryPaginated | db/pagination.go:72-105 | an unknown column is an error; otherwise the LIMIT/OFFSET page, with page and size defaulted, and the total |
| Pagination.FilterTwice | db/pagination.go:130-148 | the cursor condition and the filters together select the filtered rows after the cursor |
| Pagination.PageAt | db/pagination.go:154-177 | on ordered rows a page is the next size rows from the cursor's position, with a next cursor exactly when more remain |
| Pagination.NextStart | db/pagination.go:132-135 | the next page starts after all rows that tie with the last one |
| Pagination.FollowIsWalk | db/pagination.go:107-178 | following cursors visits the pages by position, each after the ties of the one before |
| Pagination.SelectedOrdered | db/pagination.go:126-153 | the conditions keep the order of a listing, and keys that are distinct |
| Pagination.SelectedExactly | db/pagination.go:137-148 | a query selects exactly the rows that have, under each filter column, the value given for that column, as often as the listing has them |
| Pagination.CursorsCoverAllIff | db/pagination.go:107-178 | following the cursors of a query from the start yields every selected row once and in order if and only if no two of them tie across a boundary between full pages |
| Pagination.TieSkipped | db/pagination.go:132-135 | two equal rows and pages of one: the second row is skipped |
| Pagination.KeysetMatchesOffset | db/pagination.go:72-178 | with distinct order values the pages of a query number max(1, ceil(n/size)), cover all selected rows in order, and page k is the LIMIT/OFFSET page k of them |
| Pagination.UnfilteredSelectsAll | db/pagination.go:72-178 | without conditions these are the pages of QueryPaginated |
| JobStores.JobsSound | runtime/async_store.go:124-230 | in every run a deadline is set exactly while processing, and the retry count is the number of times the reaper sent the job back since creation, never over the limit |
| JobStores.GivenUpExactly | runtime/async_store.go:199-211 | in every run a stuck job is failed exactly when it was sent back maxRetries times since its creation, and is pending again otherwise |
| JobStores.OnlyTerminalDropped | runtime/async_store.go:181-230 | a job disappears only by Delete, or by Cleanup when terminal and older than the cutoff; Cleanup alters no job it keeps |
| JobStores.CreateEffect | runtime/async_store.go:124-131 | a created job is pending, without result, error, deadline or retries, and no other job changes |
| JobStores.UpdateEffect | runtime/async_store.go:154-169 | an updated job has the given status, result and error, keeps its creation time and retries, and while processing has a deadline exactly the timeout later; an unknown job is not created and no other changes |
| JobStores.StuckExactlyAfterTimeout | runtime/async_store.go:154-214 | a job set to processing and left alone is reaped exactly from the timeout on |
| JobStores.ReapEffect | runtime/async_store.go:187-214 | what a reap makes of each job: with retries left pending and one retry later, without failed with the message, and otherwise as it was |
| JobStores.CleanupEffect | runtime/async_store.go:216-230 | exactly the completed and failed jobs not updated within the time to live are dropped |
| JobStores.ReapIdempotent | runtime/async_store.go:187-214 | after a reap nothing is stuck and a second reap at the same instant changes nothing |
| JobStores.RoundEffect | runtime/async_store_pg.go:131-173 | for any two instants of its statements, a call sends back jobs retryable at the first, fails jobs exhausted at the second and touches no other |
| JobStores.RoundShrinks | runtime/async_store_pg.go:131-173 | and leaves a hundred fewer overdue jobs or none that was overdue at the first instant |
| JobStores.RoundProgress | runtime/async_store_pg.go:131-173 | at one instant, whatever rows the engine picks, it keeps the final result and leaves a hundred fewer overdue jobs or none |
| JobStores.RoundsConverge | runtime/async_store_pg.go:131-173 | so do k calls at one instant, by k hundreds |
| JobStores.AgreeIff | runtime/async_store_pg.go:134-157 | the strict deadline comparison agrees with the memory store's if and only if no processing job's deadline is this instant |
| JobStores.RepeatedReapMatchesMemory | runtime/async_store_pg.go:131-173 | repeating the two-statement LIMIT 100 reap at one instant ends with the memory store's single pass if and only if no processing job's deadline is that instant |
| JobStores.MemoryJobStore.Create | runtime/async_store.go:124-131 | a fresh pending job, replacing any former one |
| JobStores.MemoryJobStore.Update | runtime/async_store.go:154-169 | a known job takes status, result and error, with a deadline exactly when processing |
| JobStores.MemoryJobStore.Delete | runtime/async_store.go:181-185 | the job is gone |
| JobStores.MemoryJobStore.ReapOne | runtime/async_store.go:192-212 | one job: untouched, failed, or pending with one more retry |
| JobStores.MemoryJobStore.ReapStale | runtime/async_store.go:187-214 | one pass in any order reaps every stuck job and counts them |
| JobStores.MemoryJobStore.Cleanup | runtime/async_store.go:216-230 | one pass in any order drops exactly the old terminal jobs and counts them |
| JobStores.PgJobStore.Select | runtime/async_store_pg.go:132-138 | any hundred of the rows, or all of them |
| JobStores.PgJobStore.ReapStale | runtime/async_store_pg.go:131-173 | the two statements, each at its own instant, make one round and report how many jobs it changed |
| Discovery.HeldExactly | infra/discov/subscriber.go:129-172 | after any run a key holds a value exactly when some registration of the two was never ended: by deletion, by a new value or, in exclusive mode, by another key taking the value |
| Discovery.ExclusiveInjective | infra/discov/subscriber.go:156-165 | in exclusive mode no value belongs to two keys |
| Discovery.RemoveKeepsInverse | infra/discov/subscriber.go:180-201 | removing a key keeps the index the inverse of the mapping |
| Discovery.AddKeepsInverse | infra/discov/subscriber.go:164-165 | appending a new key keeps it too |
| Discovery.Container.constructor | infra/discov/subscriber.go:120-127 | an empty, dirty container |
| Discovery.Container.Filter | infra/discov/subscriber.go:187-194 | the in-place filter drops the key and keeps the order |
| Discovery.Container.DoRemoveKey | infra/discov/subscriber.go:180-201 | the mapping without the key, the index its inverse, without empty lists |
| Discovery.Container.DropAll | infra/discov/subscriber.go:159-163 | all listed keys are removed |
| Discovery.Container.Evict | infra/discov/subscriber.go:156-163 | the keys that held a value, removed in exclusive mode |
| Discovery.Container.Append | infra/discov/subscriber.go:164-165 | the key joins the value's list and the mapping |
| Discovery.Container.AddKv | infra/discov/subscriber.go:140-172 | the registry with the key put, exclusively if so asked; the other keys that held the value are returned; a repeated registration does nothing |
| Discovery.Container.RemoveKey | infra/discov/subscriber.go:232-238 | the registry without the key |
| Discovery.Container.GetValues | infra/discov/subscriber.go:203-219 | each value of the registry exactly once, from the snapshot or afresh, which is then the snapshot |
| SnapshotReads.StepKeepsInv | infra/discov/subscriber.go:140-238 | every step of the interleaved readers, refreshes and changes keeps: a clean snapshot is current, and a reader about to load finds a version of the mapping since it began |
| SnapshotReads.ReadsAreAtomic | infra/discov/subscriber.go:203-219 | in every interleaving what GetValues returned is the values of one version of the mapping that was current between the call and its return, on the unlocked path too |
| SnapshotReads.CachedRead | infra/discov/subscriber.go:203-219 | a reader that found the flag set stores what it collected and clears the flag, and one after it, before the next change, returns the same without the lock |
| SnapshotReads.FlagDecides | infra/discov/subscriber.go:204-206 | a reader waits for the lock exactly when it finds the flag set |
| SnapshotReads.VersionsAreRegistries | infra/discov/subscriber.go:129-138 | these versions are the registries after each change |
| LineChunks.ScanBuffer | infra/filex/lookup.go:99-112 | past the rest of a line and its newlines within one buffer, or no newline in it |
| LineChunks.StopMeaning | infra/filex/lookup.go:88-114 | the stop comes after the newlines of the first line end, and is the end of the file, before another character, or a whole number of buffers away |
| LineChunks.SkipFails | infra/filex/lookup.go:95-97 | there is no stop exactly when no newline follows |
| LineChunks.SkipPartialLine | infra/filex/lookup.go:88-114 | the nested loops over buffers find that stop, right after a newline, or the error; the scan terminates |
| LineChunks.CountBound | infra/filex/lookup.go:45-70 | chunks longer than size/chunks + 1 are fewer than asked for |
| LineChunks.NextRange | infra/filex/lookup.go:75-86 | the next range ends where the scan from the preferred size stops, right after a newline, or the scan fails |
| LineChunks.SplitBy | infra/filex/lookup.go:45-72 | the loop for a preferred size: full chunks, each ending where the scan from the preferred size stops, and a last one, or the failure |
| LineChunks.PartitionAt | infra/filex/lookup.go:45-72 | range by range: each starts where the one before stops, the first at 0, the last ends with the file, every boundary right after a CR or LF |
| LineChunks.ChunkEnds | infra/filex/lookup.go:75-114 | a chunk of a split runs past the preferred size to the end of that line, takes in the newlines there as far as the buffer goes, and ends |
| LineChunks.FailsIff | infra/filex/lookup.go:75-97 | a scan finds no newline if and only if some chunk starts at an o with start of the last line <= o + preferred size < size |
| LineChunks.SplitLineChunks | infra/filex/lookup.go:19-73 | for one chunk the whole file; otherwise at most chunks ranges that partition the file, each ending where the scan from size/chunks + 1 bytes on stops, or an error exactly when some chunk starts that late |
| LineChunks.TerminatedNeverFails | infra/filex/lookup.go:88-97 | a file that ends in a newline is always split |
| LineChunks.LongTailFails | infra/filex/lookup.go:88-97 | an unterminated last line longer than the preferred size always makes it fail |

## Left out

- Executor.WaitGroupZero: does not say whose batch a waiting Add call stands for, because a confirmation may release a different adder than the one whose batch was taken
- Executor: `Sync`, the shutdown listener and panics inside Execute
- TimingWheels.TimingWheel.constructor: requires a positive interval and slot number, which `Create` checks as the source's other constructor does
- TimingWheel: `Drain`, which leaves the index populated; the channels and the argument checks in front of the operations
- Caches.Cache.Del: each call of the cache is one step; what it does to data, list and wheel in turn is not interleaved with other calls
- Cache: `Take` with its single flight, statistics, and the random spread of expiries beyond being any number
- RollingWindows.RollingWindow.Add: requires times that do not go back, as the monotonic clock of the source gives them
- Breakers.GoogleBreaker.Accept: works over reals, not float64 rounding, and takes its clock readings as one
- HashRuns.CollisionFreeRunExact: is about runs whose appends find their nodes absent; with partial replicas a later removal may take stale keys away again, so no condition on single steps decides
- SqlLiterals.QuotedKeywordIff: is about an ON CONFLICT inside a quoted literal that is not an interval's; outside quotes the translation is meant to change the query, and inside an interval literal it may or may not, see `SqlLeaks.IntervalKeywordPreserved`
- SqlInLists.InListCommutes: is about column expressions that hold nothing to rewrite, because such text is itself rewritten
- SqlReading.IntervalReads: reads a unit as any text up to the end of the expression; whether a database knows the unit is not part of this model
- HashRuns.WeightOwns: the product of replicas and weight is not wrapped to 64 bits
- SQL text is ASCII; the pattern for EXCLUDED names and the string library functions are modelled by their meaning on it
- Migrations.LoadMigrations: splitting a file into statements and its checksum are parameters
- Pagination: rows and values are abstract, the engine lists rows in order; cursors are assumed non-empty and read back to the value they were made from
- Job stores: `Get`, which hands out a pointer into the store, `List` and `Snapshot`; the NATS and Redis stores
- Discovery.Container.GetValues: is the sequential method; among concurrent changes it is the step machine of `SnapshotReads`
- Discovery: listeners and the etcd subscription
- LineChunks: file errors other than the end of the file
- Text emission, HTTP and gRPC wiring, storage backends, codecs and the other helpers of the repository, which would only add easy members or need libraries that are not shown
