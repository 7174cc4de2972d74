# Verification of the junction tables and the replication protocols

This Dafny project models two families of algorithms of the repository and proves what they are
for.

**Hash tables and reclamation (junction, turf).**

- `LinearTable` is one table of the concurrent linear-probing map: `find` and `insertOrFind`, one
  atomic memory operation per step, any number of threads.
- `LinearMigration` (with `LinearMigrationInvariant`, `LinearMigrationTheorems`,
  `LinearMigrationMutators` and `LinearMigrationRuns`) is the whole map: writers that compare-and-swap values, and workers
  that jointly move all entries to a larger table, including migrations that overflow and hand
  their tables on to the next one. The functions `migrateRange` and `run` of
  `details/Leapfrog.h` are the same text up to trace calls, so what is proved of the steps of the
  workers holds for both maps; what is proved of lookups (`MissIsRight`) is about the linear map,
  because a lookup of the Leapfrog map can miss a stored hash (`FoundOutsideTheChainCanBeMissed`).
- `LeapfrogChains` is one table of the concurrent Leapfrog map, with its delta-encoded chains
  and with threads that set links on behalf of others.
- `SingleMapLinear` and `SingleMapLeapfrog` are the single-threaded maps, as classes over arrays.
- `FlatTree` is the cooperative migration of a Grampa flat tree.
- `Qsbr` is the reclamation scheme, as a class whose history of calls is what the theorems are about.
- `Avalanche` is the integer hash. It is a bijection, which is why the other modules may speak of
  hashes instead of keys.

**Replication protocols.**

- `HamsouCalls` has the replicated objects Set, Movie, Project and Courseware; `HamsouNode` one
  replica as a state machine over events; `HamsouReplica` the handlers as methods of a class, each
  proved to perform exactly the events it adds to a ghost history; `HamsouLedger` what holds after
  every history; `HamsouCurrent` when the current state is the replay of the execution list;
  `HamsouCausality` what the vector clocks decide; `HamsouFailures` what a failure takes away;
  `HamsouGlobal` n replicas and a network; `HamsouDelivery` what happens when no message is lost;
  `HamsouConvergence`, `HamsouAgreement` and `HamsouDisagreement` when replicas end in the same state.
  `HamsouCourseware` is the name index of the relational courseware object.
- `EcroTopoSort` is Kahn's sort, and `EcroCourseware` the relational courseware object of ECRO;
  `EcroFacts` says which rows its calls add, change and remove.

`Options`, `Ring` (positions in a circular table) and `Counting` hold shared vocabulary. Atomic
operations are sequentially consistent. A concurrent component is a `State`, an `Enabled` predicate
and a `Step`; its invariant is proved for every step of every thread, hence for every interleaving.

## Results that differ from what the code or its comments suggest

- `FoundOutsideTheChainCanBeMissed`: an insert that meets its own hash during the linear search
  returns before anybody has set the link, and a lookup that the same thread makes next can miss it.
  `ReturnedIsFoundIff`: from then on the hash is always found exactly if the links before it are set.
- `ThirdAttemptCanFail`, `InsertLate`: the comment at `junction/junction/SingleMap_Leapfrog.h:228-231`
  says that the third attempt to insert succeeds. With 129 hashes in a row in 256 cells, a hash that
  differs from the first in bit 20 only needs fourteen. An attempt overflows exactly when the cells
  that the linear search visits are occupied (`Search`, `InsertOrFind`, `InsertKey`).
- `UsedSlotIsHandedOut`: QSBR admits 16383 contexts, but it can come to have more slots than that,
  and past 16384 of them `createContext` can hand out a slot in use. Up to 16384 slots it does not
  (`RunKeepsInv`, `HandsOutUnused`); `DestroyStaysSafe` has the exact condition for one call. The
  grace period itself holds without any bound.
- `DestroyKeepsFreeList`: the free list of QSBR stays complete exactly as long as the slot freed
  before is below 8192, although 16383 contexts are admitted; `SlotsAreLost` is a run.
- `FlushKeepsCount`: `flush` leaves the countdown right exactly when no context in use is idle;
  `FlushBreaksCount` is a run.
- `CurrentIsNotListReplay`, `FailureLeavesATrace`: the current state of a Hamsou replica follows the
  order of arrival (`CurrentFollowsArrival`), and need not be the replay of the execution list. It
  stays the replay exactly while no call arrives that a call behind its place in the list undoes,
  and no failure drops a call that leaves a trace (`EventInStep`, `RunInStep`).
- `QuietReplicasCanDiffer`: three replicas can end with different stable states although no message
  is lost, every channel keeps the order of sending, all have executed and stabilized the same calls,
  and nothing is left to do. A call that waits for one call to become stable can find that the same
  round of stabilization has made another one stable that it has to precede as well. The stable
  states are equal when every call comes to every replica in time (`QuietReplicasConverge`); coming in
  time is exactly what keeps related calls in the order of issue (`InOrderIffTimely`), and
  `NeverTooEarly` says what the wait test does for it.
- `EnrolmentsShowOnlyWhenStable`: the Courseware object compares the call type with "Endroll" when
  it updates the current state (`wellcoordination/benchmark/courseware.hpp:228`), so enrolments
  appear in the stable state only.
- `ForceDeletesTheHolder`, `StaleEntriesOccur`: forcing a course name can delete a course that has
  another name; this happens exactly when the index entry of the name is stale.
- `RecomputeDropsTheBase`, `PrefilledIsReplay`: `recomputeState` does not restore the tables that
  `setVars` filled in; it loses the effects of the 4n calls that would have filled them in.
- `StatesCanDiffer`, `StatesAgreeIff`: the two states of the Hamsou courseware can come to disagree
  about which courses exist. They are equal throughout the calls exactly when no call gives a
  missing course a name that the index does not lead from to that course already.

## Model

| member | source | states |
|---|---|---|
| `LinearTable.AnswersAreAtomic` | junction/junction/details/Linear.h:135-198 | Every answer of find and insertOrFind is true of the set of hashes at the step that gives it; only InsertedNew changes that set, and it adds exactly one absent hash |
| `LinearTable.NeverOverfull` | junction/junction/details/Linear.h:57 | In every reachable state occupied cells plus granted permits stay within three quarters of the size mask, and an empty cell is left |
| `LinearTable.OverflowMeansFull` | junction/junction/details/Linear.h:172-180 | A permit is refused exactly when occupied cells, granted permits and permits being given back together use up three quarters of the size mask |
| `LinearTable.ReservedStays` | junction/junction/details/Linear.h:181-187 | A reserved cell keeps its hash for good |
| `LinearTable.CallsEnd` | junction/junction/details/Linear.h:140-151 | A call ends within one lap, whatever the other threads do |
| `LinearTable.CallIsServed` | junction/junction/details/Linear.h:135-198 | From its start on a call works for its own hash, whatever other threads do; an insert ends with AlreadyFound, InsertedNew or Overflow, a find with AlreadyFound or NotFound |
| `LinearTable.NeverStuck` | junction/junction/details/Linear.h:162-197 | A thread inside a call can always take its next step |
| `LinearTable.StepKeepsInv` | junction/junction/details/Linear.h:156-198 | No step of any thread breaks uniqueness of hashes, gap-free probe paths or the permit account |
| `LinearTable.FreshTable` | junction/junction/details/Linear.h:60-69 | A new table with idle threads satisfies the invariant |
| `LinearMigrationInvariant.StepKeepsInv` | junction/junction/details/Linear.h:262-463 | Every step of writers and workers keeps all table, source, destination, claim and status invariants |
| `LinearMigrationInvariant.MigratingInsertIsNew` | junction/junction/details/Linear.h:311-315 | The insert of a migrating worker never finds its hash in the destination |
| `LinearMigrationInvariant.LastLeaverFindsEnd` | junction/junction/details/Linear.h:412-424 | The worker that leaves last reads status 3: the end flag is set and nobody else is inside |
| `LinearMigrationInvariant.LastIsAlone` | junction/junction/details/Leapfrog.h:518-531 | While a worker is at the final step every other thread is outside the migration, and the migration has overflowed or no unit remains |
| `LinearMigrationInvariant.AllSourcesRedirected` | junction/junction/details/Linear.h:400-407 | Once no unit remains every cell of every source is a redirect |
| `LinearMigrationInvariant.CountUnits` | junction/junction/details/Linear.h:451-455 | The counter a hand-off starts with is the number of distinct units over all sources |
| `LinearMigrationInvariant.HandOffSources` | junction/junction/details/Linear.h:431-458 | When an overflowed destination joins the sources, every hash still has at most one live cell over all of them |
| `LinearMigrationInvariant.HandOffKeepsInv` | junction/junction/details/Linear.h:431-458 | A failed migration leaves a state from which the next one can start, for any chain of failures |
| `LinearMigrationInvariant.PublishKeepsInv` | junction/junction/ConcurrentMap_Linear.h:50-56 | Publishing the destination keeps every invariant, and the old tables are fully redirected |
| `LinearMigrationInvariant.LiveCellIsInRoot` | junction/junction/ConcurrentMap_Linear.h:76-131 | A cell a mutator holds and finds not redirected is a cell of the published table |
| `LinearMigrationTheorems.QuietStepKeepsMap` | junction/junction/details/Linear.h:262-353 | A step that is not a writer's successful exchange changes the value of no hash; in particular no step of a migration does |
| `LinearMigrationTheorems.StepIsAtomic` | junction/junction/ConcurrentMap_Linear.h:140-199 | Every step is either invisible to the map or acts on it as one compare-and-swap that replaced exactly the map's value; what the writer holds afterwards is in the rows of LinearMigrationMutators |
| `LinearMigrationTheorems.RunIsAtomic` | junction/junction/ConcurrentMap_Linear.h:140-248 | Over every run, through any migrations and failures, each hash ends with the value that the successful writes, applied one after the other, give it |
| `LinearMigrationTheorems.WritesSeeTheMap` | junction/junction/ConcurrentMap_Linear.h:147-153 | Every write of a run replaced exactly the value left by the writes before it |
| `LinearMigrationTheorems.LoadReadsTheMap` | junction/junction/ConcurrentMap_Linear.h:260-276 | A loaded value that is not a redirect is the map's value at that moment |
| `LinearMigrationTheorems.MissIsRight` | junction/junction/ConcurrentMap_Linear.h:79-83 | A reader that misses a hash in the table it loaded, however late, is right: the map had no value for it when the root was loaded |
| `LinearMigrationTheorems.ClaimIsFresh` | junction/junction/details/Linear.h:378-381 | A claimed unit was never claimed before: nobody holds it, finished it or gave it up |
| `LinearMigrationTheorems.EndsOneWay` | junction/junction/details/Leapfrog.h:487-514 | With the end flag set exactly one of "no units remain" and "overflowed" holds |
| `LinearMigrationTheorems.FinalStepIsTakenOnce` | junction/junction/details/Linear.h:412-430 | While one worker is at the final step no other thread is in the migration or can get in |
| `LinearMigrationTheorems.SuccessMovesEverything` | junction/junction/details/Linear.h:425-430 | A migration that did not overflow ends with all sources redirected, and the destination holds for every hash exactly the map's value |
| `LinearMigrationTheorems.HandOffKeepsMap` | junction/junction/details/Linear.h:440-457 | Starting over after an overflow loses and changes no value |
| `LinearMigrationTheorems.FreshMapIsEmpty` | junction/junction/ConcurrentMap_Linear.h:40-41 | A new map satisfies the invariant and has no value for any hash |
| `LinearMigrationMutators.CasSucceedsIff` | junction/junction/ConcurrentMap_Linear.h:147-153 | A compare-exchange writes if and only if the cell is not redirected and the map still has the value that the mutator holds |
| `LinearMigrationMutators.WinnerHoldsItsValue` | junction/junction/ConcurrentMap_Linear.h:147-153 | After a successful one the mutator holds the new value, and the map has it |
| `LinearMigrationMutators.LoserHoldsTheMap` | junction/junction/ConcurrentMap_Linear.h:154-170 | After a failed one the map is as it was, and the mutator holds the map's value, which differs from what it held, or has been redirected |
| `LinearMigrationMutators.LoaderHoldsTheMap` | junction/junction/ConcurrentMap_Linear.h:76-131 | After loading its value the mutator holds the map's value, or has been redirected |
| `LinearMigrationMutators.ReserverHoldsNull` | junction/junction/ConcurrentMap_Linear.h:90-131 | A mutator that reserved a cell holds NULL, which the map has for its hash before and after unless the cell is redirected |
| `LinearMigrationMutators.LoserLostToAWrite` | junction/junction/ConcurrentMap_Linear.h:154-170 | A mutator that knew the map's value loses its exchange, however much later, only to another thread's write of the same hash or to a redirect |
| `LinearMigrationMutators.ReaderMissIsRight` | junction/junction/ConcurrentMap_Linear.h:260-276 | A reader that loads the root for a hash and finds no cell, after any steps of others, is right about the moment of loading |
| `LinearMigrationMutators.ReaderReads` | junction/junction/ConcurrentMap_Linear.h:260-276 | A reader that found its cell, and loads the value after any steps of others, gets the map's value or a redirect |
| `LinearMigrationMutators.NeverStuck` | junction/junction/details/Linear.h:262-463 | A thread that is inside an operation or a migration can always take a step |
| `LinearMigrationRuns.MigrationCanSucceed` | junction/junction/details/Linear.h:262-430 | A run from a new map that writes a value, moves it to a larger table and publishes that, with every cell of the end |
| `LinearMigrationRuns.MigrationCanStartOver` | junction/junction/details/Linear.h:431-458 | A run that overflows and begins a new migration with both tables as sources and a destination of twice the size |
| `LeapfrogChains.StepKeepsInv` | junction/junction/details/Leapfrog.h:189-306 | Every step of every thread keeps the table invariant, and the table only grows |
| `LeapfrogChains.FreshTable` | junction/junction/details/Leapfrog.h:70-86 | A new table of any size with any number of idle threads satisfies the invariant |
| `LeapfrogChains.ChainsAreExact` | junction/junction/details/Leapfrog.h:215-297 | No hash is in two cells, and a set delta leads to a cell of the same bucket with none of that bucket in between, inside the range of the probe |
| `LeapfrogChains.LinksNeverChange` | junction/junction/details/Leapfrog.h:257-296 | A delta never changes once set, whether its owner or a helper stores it again; a reserved cell keeps its hash |
| `LeapfrogChains.AnswersAreTrue` | junction/junction/details/Leapfrog.h:199-214 | A hash is absent when a cell is reserved for it and present when it is reported |
| `LeapfrogChains.ResultsAreRight` | junction/junction/details/Leapfrog.h:189-306 | InsertedNew is answered exactly by the call that reserved the cell; every other answer of an insert is AlreadyFound or an overflow |
| `LeapfrogChains.CallIsServed` | junction/junction/details/Leapfrog.h:152-306 | From its start on a call works for its own hash and answers as an insert or a find, whatever other threads do |
| `LeapfrogChains.FoundIffChained` | junction/junction/details/Leapfrog.h:152-185 | In a quiet table the lookup finds a hash exactly when every link of its bucket before it is set |
| `LeapfrogChains.ReturnedIsFound` | junction/junction/details/Leapfrog.h:219-297 | After an insert that reached its cell through the links or linked it itself, every later table yields the hash, whatever happens in between |
| `LeapfrogChains.ReturnedIsFoundIff` | junction/junction/details/Leapfrog.h:219-297 | Whichever way an insert ended, every later table yields its hash if and only if the links before its cell are set at the return |
| `LeapfrogChains.SureFindSucceeds` | junction/junction/details/Leapfrog.h:152-185 | A find that starts when the hash is chained returns its cell, among any steps of other threads |
| `LeapfrogChains.StartedFindSucceeds` | junction/junction/details/Leapfrog.h:152-185 | The same over runs, from the start of the find to its answer |
| `LeapfrogChains.OverflowSampleIsFull` | junction/junction/details/Leapfrog.h:299-303 | On overflow every cell the size estimate samples is reserved |
| `LeapfrogChains.CallsEnd` | junction/junction/details/Leapfrog.h:189-306 | Every call can go on and ends within a bounded number of its own steps |
| `LeapfrogChains.FoundOutsideTheChainCanBeMissed` | junction/junction/details/Leapfrog.h:274-279 | A run of twelve steps after which a thread has been told AlreadyFound for a hash that a lookup does not find |
| `SingleMapLinear.SingleMap.constructor` | junction/junction/SingleMap_Linear.h:79-80 | A new map object is valid and empty |
| `SingleMapLinear.SingleMap.Find` | junction/junction/SingleMap_Linear.h:93-106 | The probe finds the hash exactly when the map has it, and otherwise ends at the first empty cell of its path |
| `SingleMapLinear.SingleMap.Place` | junction/junction/SingleMap_Linear.h:66-73 | The migrating insert adds exactly one entry and breaks no probe path |
| `SingleMapLinear.SingleMap.MigrateToNewTable` | junction/junction/SingleMap_Linear.h:58-76 | The new table has the requested size and stands for the same map |
| `SingleMapLinear.SingleMap.InsertOrFind` | junction/junction/SingleMap_Linear.h:109-131 | The hash has a cell afterwards, nothing else changes, the load bound holds again and the table grew at most once, to double |
| `SingleMapLinear.SingleMap.Get` | junction/junction/SingleMap_Linear.h:187-190 | Returns the map's value, NULL when there is none |
| `SingleMapLinear.SingleMap.Assign` | junction/junction/SingleMap_Linear.h:192-195 | The map is updated at one hash and the previous value is returned |
| `SingleMapLinear.SingleMap.Erase` | junction/junction/SingleMap_Linear.h:197-202 | The hash leaves the map, everything else stays, and the previous value is returned |
| `SingleMapLinear.SingleMap.RemoveAt` | junction/junction/SingleMap_Linear.h:155-180 | The shifting loop ends, leaves no gap in any wrap-around probe path and removes exactly one entry |
| `SingleMapLinear.MissMeansAbsent` | junction/junction/SingleMap_Linear.h:96-105 | An empty cell on the probe path proves that the hash is stored nowhere |
| `SingleMapLinear.InsertKeepsTable` | junction/junction/SingleMap_Linear.h:120-128 | Reserving the cell where the probe stopped keeps hashes unique and paths free of gaps |
| `SingleMapLinear.ShiftBack` | junction/junction/SingleMap_Linear.h:172-178 | Moving a neighbour whose path crosses the hole turns its cell into the hole, keeps the map and brings the loop nearer to its end |
| `SingleMapLinear.KeepScanning` | junction/junction/SingleMap_Linear.h:172-179 | A neighbour whose path does not cross the hole can stay where it is |
| `SingleMapLinear.FinishRemoving` | junction/junction/SingleMap_Linear.h:164-171 | At the first empty cell the hole may become empty without breaking any path |
| `SingleMapLinear.SizeAndRoom` | junction/junction/SingleMap_Linear.h:54-56 | There is an empty cell exactly when there are fewer entries than cells |
| `SingleMapLeapfrog.SingleMap.constructor` | junction/junction/SingleMap_Leapfrog.h:183-184 | A new map object is valid and empty |
| `SingleMapLeapfrog.SingleMap.Follow` | junction/junction/SingleMap_Leapfrog.h:87-99 | Following the deltas finds the hash or stops at the last node of its bucket |
| `SingleMapLeapfrog.SingleMap.Search` | junction/junction/SingleMap_Leapfrog.h:100-123 | The linear search never meets the hash and links the cell it reserves; it overflows if and only if every cell it may visit beyond the chain was occupied, and says where |
| `SingleMapLeapfrog.SingleMap.InsertOrFind` | junction/junction/SingleMap_Leapfrog.h:74-123 | Which of the three results is given, overflow if and only if the chain ends without the hash and without room beyond it, what changes, and that a free home cell is always used |
| `SingleMapLeapfrog.SingleMap.TryMigrateToNewTableWithSize` | junction/junction/SingleMap_Leapfrog.h:125-150 | Success moves exactly the entries that have a value; failure restores the old table; a table larger than every hash never fails |
| `SingleMapLeapfrog.SingleMap.MigrateToNewTable` | junction/junction/SingleMap_Leapfrog.h:152-180 | The retries end, the map is unchanged, erased entries are purged, a table that had none at least doubles, and the size is the estimate when all hashes are below it |
| `SingleMapLeapfrog.SingleMap.InsertKey` | junction/junction/SingleMap_Leapfrog.h:222-234 | The insert loop ends with a cell for the hash and leaves the map unchanged; the tables it meets all overflow and are migrated except the last, which has room |
| `SingleMapLeapfrog.OverflowDecided` | junction/junction/SingleMap_Leapfrog.h:100-123 | With the end of the chain given, the cells beyond it alone decide whether the insert overflows |
| `SingleMapLeapfrog.LaterAttemptsDouble` | junction/junction/SingleMap_Leapfrog.h:228-232 | Every attempt after the first that overflows at least doubles the table |
| `SingleMapLeapfrog.ThirdAttemptCanFail` | junction/junction/SingleMap_Leapfrog.h:228-232 | From a table of 256 cells holding 10 to 138 at home, inserting 10 + 2^20 takes fourteen attempts, not three |
| `SingleMapLeapfrog.InsertLate` | junction/junction/SingleMap_Leapfrog.h:222-234 | The calls on a new map that lead there |
| `SingleMapLeapfrog.SingleMap.Find` | junction/junction/SingleMap_Leapfrog.h:197-219 | A cell is returned exactly when one holds the hash |
| `SingleMapLeapfrog.SingleMap.Get` | junction/junction/SingleMap_Leapfrog.h:269-272 | Returns the map's value, NULL when there is none or it was erased |
| `SingleMapLeapfrog.SingleMap.Set` | junction/junction/SingleMap_Leapfrog.h:274-277 | The map is updated at one hash and the previous value is returned |
| `SingleMapLeapfrog.SingleMap.Erase` | junction/junction/SingleMap_Leapfrog.h:279-284 | The hash leaves the map, everything else stays, and the previous value is returned |
| `SingleMapLeapfrog.EndOfChain` | junction/junction/SingleMap_Leapfrog.h:100-117 | At the end of a chain without a match the hash is in no cell at all |
| `SingleMapLeapfrog.ReserveAndLink` | junction/junction/SingleMap_Leapfrog.h:109-115 | Reserving and linking keeps every delta exact and every node linked |
| `SingleMapLeapfrog.PassedIsFull` | junction/junction/SingleMap_Leapfrog.h:120-122 | On overflow all 128 sampled cells are occupied |
| `SingleMapLeapfrog.OverflowDoubles` | junction/junction/SingleMap_Leapfrog.h:152-173 | In a table without erased entries an overflow makes the next size tried exactly double |
| `SingleMapLeapfrog.InUseCounts` | junction/junction/SingleMap_Leapfrog.h:152-170 | The estimate counts the sampled cells that have a value, not those that are reserved |
| `SingleMapLeapfrog.OverflowIsSmall` | junction/junction/SingleMap_Leapfrog.h:224-233 | A migrated table that overflows is not larger than the largest hash, so the retries end |
| `SingleMapLeapfrog.RoundUpIsLeast` | turf/turf/Util.h:96-106 | The rounded size is a power of two, not smaller than the argument and less than twice it |
| `Avalanche.Undo32` | turf/turf/Util.h:143-159 | deavalanche undoes avalanche on every 32-bit word |
| `Avalanche.Redo32` | turf/turf/Util.h:143-159 | avalanche undoes deavalanche on every 32-bit word |
| `Avalanche.Undo64` | turf/turf/Util.h:162-178 | deavalanche undoes avalanche on every 64-bit word |
| `Avalanche.Redo64` | turf/turf/Util.h:162-178 | avalanche undoes deavalanche on every 64-bit word |
| `Avalanche.HashIsBijective32` | junction/junction/MapTraits.h:25-32 | Hashing is one-to-one and onto, and only the null key has the null hash |
| `Avalanche.HashIsBijective64` | junction/junction/MapTraits.h:25-32 | The same for 64-bit keys |
| `FlatTree.StepKeepsInv` | junction/junction/details/Grampa.h:824-885 | Every step of any worker, and every change of a slot by another thread, keeps the invariant |
| `FlatTree.ExchangeFindsTable` | junction/junction/details/Grampa.h:849-853 | The exchange never finds the redirect marker: each source slot is exchanged once |
| `FlatTree.WrittenOnce` | junction/junction/details/Grampa.h:852-857 | What a slot held when exchanged, and what was stored for it, never changes again |
| `FlatTree.LeaveKeeps` | junction/junction/details/Grampa.h:869-880 | Only a worker that leaves alone goes on to publish, and it finds the end flag set |
| `FlatTree.PublishedIsComplete` | junction/junction/details/Grampa.h:877-881 | At publication nobody is active, one thread publishes, every source slot is redirected and every new slot holds what its source slot held |
| `FlatTree.HashesAreRouted` | junction/junction/ConcurrentMap_Grampa.h:39-55 | Every hash finds in the new tree the table that its slot of the old tree held when it was exchanged |
| `FlatTree.NoChangeIsLost` | junction/junction/details/Grampa.h:824-857 | Over every run a slot holds the table stored in it last, and when it is exchanged, that table is what moves to the new tree |
| `FlatTree.WorkerAdvances` | junction/junction/details/Grampa.h:824-885 | A worker can always go on, and every step brings it nearer to its end by a measure that cannot fall for ever |
| `FlatTree.OthersDoNotDelay` | junction/junction/details/Grampa.h:824-885 | No step of another thread takes that back |
| `FlatTree.AttendedStays` | junction/junction/details/Grampa.h:869-885 | A migration that has begun has a worker or a publisher until it is published |
| `FlatTree.IdleMeansPublished` | junction/junction/details/Grampa.h:869-885 | When all threads have gone again the new tree is published and complete |
| `FlatTree.FreshMigration` | junction/junction/details/Grampa.h:289-298 | A new migration satisfies the invariant |
| `Qsbr.GracePeriod` | junction/junction/QSBR.cpp:63-90 | In every history, whatever the number of slots: when an action has been executed, every context in use at its enqueueing has called update or been destroyed since |
| `Qsbr.RoundEnds` | junction/junction/QSBR.cpp:63-90 | The converse: once every context that was active, and every one created since, has been quiescent or destroyed, the round has ended |
| `Qsbr.EndedRoundRuns` | junction/junction/QSBR.cpp:63-70 | When a round has ended the actions that were pending have been executed, and those that were deferred are pending at least |
| `Qsbr.ActionsInOrder` | junction/junction/QSBR.cpp:63-70 | Executed, pending and deferred actions together are the enqueued ones, each once and in order |
| `Qsbr.RunKeepsInv` | junction/junction/QSBR.cpp:23-90 | After every history with at most 16384 slots the countdown equals the contexts in use that are not idle, and the free list ends and holds unused slots only |
| `Qsbr.HandsOutUnused` | junction/junction/QSBR.cpp:30-38 | Then the slot that createContext returns is not in use, as the source asserts |
| `Qsbr.UsedSlotIsHandedOut` | junction/junction/QSBR.cpp:30-33 | A history within all other assertions after which createContext returns a slot in use |
| `Qsbr.DestroyStaysSafe` | junction/junction/QSBR.cpp:52-54 | Destroying a context leaves a free list of unused slots if and only if the 14 bits kept of the previous head lead to unused slots only |
| `Qsbr.RunKeepsIndex` | junction/junction/QSBR.cpp:30-34 | In every history the head and all nextFree fields stay below the number of slots, as the source asserts |
| `Qsbr.RunKeepsFreeList` | junction/junction/QSBR.cpp:29-54 | After every history with at most 8192 slots the free list holds every unused slot once |
| `Qsbr.StepKeepsFreeList` | junction/junction/QSBR.cpp:29-38 | An event keeps the free list acyclic and complete, a destroy as long as the previous head fits the field |
| `Qsbr.DestroyKeepsFreeList` | junction/junction/QSBR.cpp:52-54 | Destroying a context keeps the free list complete if and only if the slot freed before is below 8192 |
| `Qsbr.SlotsAreLost` | junction/junction/QSBR.cpp:52-54 | 8193 creates and two destroys after which an unused slot is not on the free list |
| `Qsbr.EachContextCountsOnce` | junction/junction/QSBR.cpp:72-87 | A context's first update in a round counts once, and the last one ends the round and runs the pending actions |
| `Qsbr.DestroyCountsOnce` | junction/junction/QSBR.cpp:42-61 | Destroying a context counts if it was not idle, and the last one ends the round and runs the pending actions; otherwise nothing is run and no action moves |
| `Qsbr.RoundGoesOnStep` | junction/junction/QSBR.cpp:23-90 | Any other event runs nothing, and makes nobody active but a context it creates |
| `Qsbr.FlushRunsEverything` | junction/junction/QSBR.cpp:92-104 | After any history flush leaves nothing to run: all enqueued actions have been executed, each once and in order |
| `Qsbr.FlushKeepsCount` | junction/junction/QSBR.cpp:92-104 | flush leaves the countdown right if and only if no context in use is idle |
| `Qsbr.FlushBreaksCount` | junction/junction/QSBR.cpp:92-104 | Two creates and an update after which flush counts two contexts where one is active |
| `Qsbr.QSBR.CreateContext` | junction/junction/QSBR.cpp:23-40 | Within the limit on contexts the source asserts: performs the create event, disturbs no other context, and with at most 16384 slots hands out one that was not in use |
| `Qsbr.QSBR.DestroyContext` | junction/junction/QSBR.cpp:42-61 | Releases that context alone; if it was the last one counted the pending actions are executed, the deferred ones become pending and a round begins, otherwise no action moves |
| `Qsbr.QSBR.OnAllQuiescentStatesPassed` | junction/junction/QSBR.cpp:63-70 | Hands out the pending actions, promotes the deferred ones and restarts the round |
| `Qsbr.QSBR.Update` | junction/junction/QSBR.cpp:72-90 | Counts a context once; if it was the last one counted the pending actions are executed, the deferred ones become pending and a round begins, otherwise no action moves |
| `Qsbr.QSBR.Enqueue` | junction/junction/QSBR.h:67-81 | Adds the action behind all others |
| `HamsouCalls.CompareVectorClocks` | wellcoordination/benchmark/set.hpp:78-121 | -1 exactly if the first clock is longer; otherwise 0 if no component of it exceeds the second, 2 if some does and none is less, 1 if some is greater and some is less |
| `HamsouCalls.CompareBothWays` | wellcoordination/benchmark/set.hpp:78-121 | Read from both sides, the answers on clocks of one length form a partial order |
| `HamsouCausality.AfterMeansExceeds` | wellcoordination/benchmark/set.hpp:78-121 | The answer is 2 exactly if every component of the first clock is at least the second's and one is greater |
| `HamsouCausality.TickedIsAfter` | wellcoordination/benchmark/set.hpp:78-121 | A clock that counts everything the other counts compares 2 with it once it is ticked, and the other way round 0 |
| `HamsouCausality.WaitsIff` | protocol-hamsou.cpp:318-352 | A remote call waits if and only if its clock exceeds that of the top of the queue, or of an unstable call that it has to precede |
| `HamsouCausality.IssuedClock` | protocol-hamsou.cpp:253-304 | In every history the clock of an issued call counts the calls of each node that its replica had executed, and itself |
| `HamsouCausality.SeenCallsComeBefore` | protocol-hamsou.cpp:253-304 | An issued call compares 2 with every call whose clock counts only calls that the issuer had executed |
| `HamsouCausality.IssueOrder` | protocol-hamsou.cpp:253-304 | Of two calls issued by one replica the later compares 2 with the earlier |
| `HamsouCausality.OnlySeenCallsWait` | protocol-hamsou.cpp:318-399 | In every history a call that was executed on arrival had not seen what it would have had to wait for, one that was queued had, and one that left the queue no longer had |
| `HamsouCausality.ReachableExactly` | wellcoordination/benchmark/project.hpp:149-169 | One call has to precede another exactly if the other takes elements out of a set that the first puts elements into or links |
| `HamsouCausality.RemovalsComeLast` | protocol-hamsou.cpp:366-381 | After every history no unstable call adds or links anything behind a call that removes it or could remove its ends |
| `HamsouNode.RunKeepsLedger` | protocol-hamsou.cpp:318-400 | After every event sequence, failures included: indices agree with list and stable prefix, the stable state is the replay of that prefix, each stable call meets the threshold that holds now, and the unstable suffix respects the relation |
| `HamsouNode.InsertOrdered` | protocol-hamsou.cpp:366-381 | Inserting a remote call before the first call that has to follow it keeps the suffix in order |
| `HamsouNode.FailureOrdered` | protocol-hamsou.cpp:666-681 | Dropping the calls of a dead node keeps the suffix in order |
| `HamsouNode.Bipartite` | wellcoordination/benchmark/project.hpp:149-169 | A call that has to precede another has none that has to precede it, and the other has none to precede |
| `HamsouLedger.StablePrefixGrows` | protocol-hamsou.cpp:526-556 | Between any two moments of a run the stable prefix was only extended |
| `HamsouLedger.StableStays` | protocol-hamsou.cpp:656-681 | A stable call is never lost, whatever fails |
| `HamsouLedger.CallsAreKept` | protocol-hamsou.cpp:318-400 | List and queue hold exactly the accepted calls, less the unstable calls of nodes marked failed that have no acknowledgement |
| `HamsouLedger.LiveNodesLoseNothing` | protocol-hamsou.cpp:666-681 | No call is lost whose node is not marked failed |
| `HamsouFailures.FailureKeeps` | protocol-hamsou.cpp:666-681 | How often a failure leaves a call in the list: the unstable copies of a call of the dead node without acknowledgement go, everything else stays |
| `HamsouFailures.FailureSelects` | protocol-hamsou.cpp:666-681 | A failure leaves the stable calls and, at increasing positions, exactly the unstable ones that do not go |
| `HamsouFailures.AcknowledgedSurvives` | protocol-hamsou.cpp:669-679 | A call with an acknowledgement survives the failure of its node |
| `HamsouFailures.AcksAreCounted` | protocol-hamsou.cpp:464-480 | The counter of a call is the number of acknowledgements that arrived in the history |
| `HamsouFailures.CountedCallStays` | protocol-hamsou.cpp:656-681 | Once a call in the list has been acknowledged it is never lost, whichever nodes fail |
| `HamsouFailures.UncountedCallGoes` | protocol-hamsou.cpp:656-681 | An unstable call of a failed node that was never acknowledged is gone |
| `HamsouLedger.CurrentFollowsArrival` | protocol-hamsou.cpp:279-302 | The current state is the replay in order of arrival, the vector clock counts executed calls per node, and each remote execution is acknowledged once, in order |
| `HamsouLedger.CurrentIsNotListReplay` | protocol-hamsou.cpp:378-382 | A run after which the current state is not the replay of the list |
| `HamsouCurrent.ExecuteInStep` | protocol-hamsou.cpp:366-382 | While the current state is the replay of the list, an arrival keeps it so if and only if no call behind its place undoes it |
| `HamsouCurrent.FailureInStep` | protocol-hamsou.cpp:656-682 | A failure keeps it so if and only if the calls that stay make the same of every item a dropped call is about |
| `HamsouCurrent.EventInStep` | protocol-hamsou.cpp:253-400 | The same for every event; issuing, queueing, counting and stabilizing always keep it |
| `HamsouCurrent.RunInStep` | protocol-hamsou.cpp:253-400 | Throughout a run the current state is the replay of the list if and only if every event is harmless in that sense |
| `HamsouCurrent.OrderedDecides` | protocol-hamsou.cpp:366-381 | In a list that respects the relation an item is present exactly when no call takes it out and a call puts it in or it was there before |
| `HamsouCurrent.FailureLeavesATrace` | protocol-hamsou.cpp:656-682 | A run of two events after which the list is empty and the current state is not |
| `HamsouLedger.EnrolmentsShowOnlyWhenStable` | wellcoordination/benchmark/courseware.hpp:218-281 | After every run the current courseware state has no enrolment, and the stable one has exactly those of the stable calls |
| `HamsouLedger.LastCallDecides` | wellcoordination/benchmark/project.hpp:261-292 | For all four objects a replayed set holds a value exactly when the last call about it added it |
| `HamsouLedger.StableStateIsLastWrites` | protocol-hamsou.cpp:545-556 | After every history a value is in the stable state exactly when the last stable call about it added it |
| `HamsouLedger.TopWaitsOnlyForList` | protocol-hamsou.cpp:322-333 | Retrying the top of the queue depends on the execution list alone |
| `HamsouReplica.Replica.LocalHandler` | protocol-hamsou.cpp:253-304 | The call is issued exactly when it has to precede no unstable call; otherwise nothing changes |
| `HamsouReplica.Replica.QueueHandler` | protocol-hamsou.cpp:318-352 | A call waits exactly when its clock exceeds that of the queue's top or of an unstable call that it has to precede |
| `HamsouReplica.Replica.InsertRemote` | protocol-hamsou.cpp:363-396 | The remote execution: position, counters, clock and acknowledgement |
| `HamsouReplica.Replica.RemoteHandler` | protocol-hamsou.cpp:354-399 | Executes the call unless it has to wait; queues it at most when asked to |
| `HamsouReplica.Replica.UpdateAcksTable` | protocol-hamsou.cpp:464-493 | One acknowledgement is counted; below the threshold nothing else happens, otherwise calls are stabilized until none can be |
| `HamsouReplica.Replica.StabilizerWithAck` | protocol-hamsou.cpp:494-581 | Stabilizes until no call can be, and retries the queue until its top is blocked exactly if something was stabilized |
| `HamsouReplica.Replica.InternalDownstreamExecute` | protocol-hamsou.cpp:621-639 | A received call is executed or queued, then the queue is emptied until its top is blocked |
| `HamsouReplica.Replica.RemoveOrphans` | protocol-hamsou.cpp:669-679 | Removes exactly the unstable calls of the dead node without an acknowledgement, and keeps the others in order |
| `HamsouReplica.Replica.MarkNodeFailed` | protocol-hamsou.cpp:656-724 | A second report changes nothing; the first drops exactly the unstable calls of the dead node without an acknowledgement, drains the queue completely and leaves no call that could be stabilized |
| `HamsouReplica.Replica.constructor` | protocol-hamsou.cpp:95-112 | A new replica is in the initial state with an empty history |
| `HamsouGlobal.StableIsEverywhere` | protocol-hamsou.cpp:464-556 | In every failure-free run of n replicas, a call that is stable anywhere has been executed by every replica |
| `HamsouGlobal.IssuedOnlyWhenSafe` | protocol-hamsou.cpp:264-276 | A local call that has to precede an executed call is issued only when every replica has executed the latter |
| `HamsouGlobal.ExecutedAtMostOnce` | protocol-hamsou.cpp:354-399 | Every replica holds a call at most once, and only calls that their node has issued |
| `HamsouGlobal.SendsAreFresh` | protocol-hamsou.cpp:387-396 | No message is ever sent twice |
| `HamsouGlobal.StableIsHeard` | protocol-hamsou.cpp:526-545 | The counters of a stable call prove an acknowledgement of every replica but the origin and the observer |
| `HamsouGlobal.MoveKeepsInv` | protocol-hamsou.cpp:253-400 | Every issue, delivery, loss, retry and stabilization keeps the invariant of the whole system |
| `HamsouDelivery.EveryoneIsTold` | protocol-hamsou.cpp:354-399 | In every run a replica has sent every call it issued, and acknowledged every other call it executed, to all other replicas |
| `HamsouDelivery.NothingVanishes` | protocol-hamsou.cpp:354-399 | Without losses a call that was sent and is no longer in flight is held by its destination |
| `HamsouDelivery.AcksAreExact` | protocol-hamsou.cpp:464-493 | Without losses each counter is the number of replicas whose acknowledgement is no longer in flight |
| `HamsouDelivery.QuietReplicasAgree` | protocol-hamsou.cpp:253-400 | Without losses, once no message is in flight and no queue holds a call, all replicas have executed the same calls, each once |
| `HamsouDelivery.QuietCallsAreAcknowledged` | protocol-hamsou.cpp:464-493 | Then every call has reached exactly its threshold at every replica |
| `HamsouDelivery.EverythingBecomesStable` | protocol-hamsou.cpp:526-556 | Then a replica that can stabilize nothing has stabilized everything |
| `HamsouDelivery.AnythingCanArrive` | protocol-hamsou.cpp:318-399 | Every message in flight can be delivered |
| `HamsouConvergence.UnorderedCommute` | wellcoordination/benchmark/project.hpp:261-292 | Calls that the relation leaves unordered have the same effect in either order, for all four objects |
| `HamsouConvergence.AlikeReplayEqually` | wellcoordination/benchmark/set.hpp:215-234 | Two orders of the same calls that agree on every pair of related calls replay to the same state |
| `HamsouConvergence.OrdersReplayEqually` | wellcoordination/benchmark/set.hpp:215-234 | Two orders of the same calls that both respect the relation replay to the same state |
| `HamsouConvergence.ReplicasConverge` | protocol-hamsou.cpp:366-381 | Replicas with equal stable prefixes and the same unstable calls replay to equal states, after any event sequences with failures |
| `HamsouConvergence.SystemConverges` | protocol-hamsou.cpp:253-400 | In the running system, replicas that executed the same calls and agree on the stable prefix replay to equal states |
| `HamsouAgreement.StepInOrder` | protocol-hamsou.cpp:354-399 | A move keeps a replica's related calls in the order of issue if and only if every call it executes comes in time: the calls it has to precede are stable there exactly if it was issued after them |
| `HamsouAgreement.InOrderIffTimely` | protocol-hamsou.cpp:253-400 | The same over runs: a replica has related calls in the order of issue throughout, if and only if every call comes to it in time |
| `HamsouAgreement.SameCallsSameState` | protocol-hamsou.cpp:366-381 | Replicas to which all calls came in time, and that have executed the same calls, replay to the same state, whatever each has stabilized |
| `HamsouAgreement.QuietReplicasConverge` | protocol-hamsou.cpp:526-556 | Without losses, once all is quiet and nothing can be stabilized, such replicas have the same stable state |
| `HamsouAgreement.NeverTooEarly` | protocol-hamsou.cpp:336-347 | A call whose issuer had executed what the clock of another call counts is not executed while that one is unstable and has to follow it |
| `HamsouDisagreement.QuietReplicasCanDiffer` | protocol-hamsou.cpp:494-581 | A run of three replicas over channels that keep order and lose nothing, after which all is quiet and stable and the stable states differ |
| `HamsouCourseware.NamesStayUnique` | wellcoordination/benchmark/complex-courseware.hpp:627-796 | In either state, after any calls, every course is indexed under its name and no two share a name |
| `HamsouCourseware.RowAfter` | wellcoordination/benchmark/complex-courseware.hpp:627-796 | For every call and either state, which courses there are afterwards, and with which name, semester and department |
| `HamsouCourseware.NameAfter` | wellcoordination/benchmark/complex-courseware.hpp:627-796 | For every call and either state, which names the index knows afterwards, and where they lead |
| `HamsouCourseware.CallAgrees` | wellcoordination/benchmark/complex-courseware.hpp:740-784 | A call has the same effect on both states if and only if it renames no missing course, or the index leads from the name to that course already |
| `HamsouCourseware.StatesAgreeIff` | wellcoordination/benchmark/complex-courseware.hpp:946-1104 | The two states are equal after every prefix of the calls if and only if each call is of that kind where it comes |
| `HamsouCourseware.StatesCanDiffer` | wellcoordination/benchmark/complex-courseware.hpp:780-784 | Three calls after which a course exists in the stable state only |
| `HamsouCourseware.CourseTables.Update` | wellcoordination/benchmark/complex-courseware.hpp:627-796 | One call, on either state, keeps the name index |
| `EcroTopoSort.Handler.FullTopoSort` | protocol-ecros.cpp:646-669 | The order has no repeats, puts every call after its predecessors, omits exactly the calls reachable from a cycle, and is complete on an acyclic graph |
| `EcroTopoSort.Handler.Release` | protocol-ecros.cpp:664-667 | Removing the edges of an emitted call makes ready exactly the calls left without predecessors, duplicates of edges included |
| `EcroTopoSort.EmittedIsNotBehindCycle` | protocol-ecros.cpp:659-668 | A call of a sorted order is not reachable from any cycle |
| `EcroTopoSort.OmittedIsBehindCycle` | protocol-ecros.cpp:659-668 | If every omitted call has an omitted predecessor, each of them is reachable from a cycle |
| `EcroCourseware.ReplayKeepsIntegrity` | wellcoordination/benchmark/ecros-complex-courseware.hpp:255-616 | For every sequence of calls: links reference existing rows, departments of courses exist, names are indexed |
| `EcroCourseware.EffectKeepsIntegrity` | wellcoordination/benchmark/ecros-complex-courseware.hpp:322-613 | None of the nineteen operations breaks integrity |
| `EcroCourseware.RecomputedIsSound` | wellcoordination/benchmark/ecros-complex-courseware.hpp:700-717 | Whatever the order replayed, the tables are sound and no two courses share a name |
| `EcroCourseware.DuplicatesAreIgnored` | wellcoordination/benchmark/ecros-complex-courseware.hpp:257-259 | A call that was applied before has no effect |
| `EcroFacts.FactsAfter` | wellcoordination/benchmark/ecros-complex-courseware.hpp:255-616 | For each of the nineteen operations and each of the seven tables, exactly which rows are there afterwards: those the call adds, and those it carries over, with their contents |
| `EcroFacts.FactsOfHistory` | wellcoordination/benchmark/ecros-complex-courseware.hpp:255-616 | After any calls a row is there if and only if it was there at the start or a call that took effect added it, and every later one that took effect carried it on through renumbering, cascades and forced names |
| `EcroCourseware.PrefilledIsSound` | wellcoordination/benchmark/ecros-complex-courseware.hpp:232-252 | Integrity also holds for every sequence applied to the prefilled tables |
| `EcroCourseware.RecomputeDropsTheBase` | wellcoordination/benchmark/ecros-complex-courseware.hpp:700-717 | Throughout a rebuild there is no department, course or instructor if and only if no call that takes effect adds a department |
| `EcroCourseware.BaseIsReplay` | wellcoordination/benchmark/ecros-complex-courseware.hpp:232-252 | The prefilled tables are the replay of 4n calls from empty tables |
| `EcroCourseware.PrefilledIsReplay` | wellcoordination/benchmark/ecros-complex-courseware.hpp:232-252 | Any calls on the prefilled tables have the result of the same calls after those 4n, so a rebuild loses exactly these |
| `EcroCourseware.ForceDeletesTheHolder` | wellcoordination/benchmark/ecros-complex-courseware.hpp:477-483 | Forcing a name deletes exactly the other course that has it, if and only if the index entry is not stale |
| `EcroCourseware.StaleEntriesOccur` | wellcoordination/benchmark/ecros-complex-courseware.hpp:505-517 | Four calls that leave a stale entry behind |
| `EcroCourseware.Courseware.ApplyCall` | wellcoordination/benchmark/ecros-complex-courseware.hpp:255-616 | One call has its effect once and keeps integrity; what the effect is, table by table, is in the rows of EcroFacts |
| `EcroCourseware.Courseware.RecomputeState` | wellcoordination/benchmark/ecros-complex-courseware.hpp:700-717 | The tables are the replay of the order from empty tables, and sound |
| `EcroCourseware.Courseware.SetVars` | wellcoordination/benchmark/ecros-complex-courseware.hpp:232-252 | The prefilled tables are sound |

## Left out

- Memory ordering: every atomic operation is sequentially consistent; relaxed, consume and acquire orderings, spurious failures of weak exchanges, heap allocation and striped locks are not modelled.
- Machine words: hashes, indices and counters are unbounded numbers, table sizes are not limited by memory, and masking is the remainder by the table size; the 14-bit field of QSBR and the words of the hash function are modelled at their width.
- Floating point: size estimates use exact rationals rounded down; `roundUpPowerOf2` is modelled by what it computes, not by its shifts.
- LinearMigration: `find` and `insertOrFind` are single steps there; `LinearTable` shows step by step that they behave so. Which table size a new migration gets is left open, and a thread that arrives with an outdated migration object finds it ended.
- Leapfrog migration: `migrateRange` and `run` of details/Leapfrog.h are covered by the same model as Linear.h; what is not covered is a lookup that misses an unlinked cell while such a migration runs.
- LeapfrogChains.ReturnedIsFound: is about inserts that reached their cell through the links; ReturnedIsFoundIff has the exact condition for all of them.
- Qsbr.RunKeepsInv: stated up to 16384 slots, past which it fails (UsedSlotIsHandedOut); a context is destroyed only while it is in use, context numbers are not cut to 16 bits, actions do not call back, and `flush` is not an event of histories: what it does after any history is in its own lemmas.
- HamsouReplica.Replica.QueueHandler: the order of the binary heap below its top is arbitrary, because the comparison given to it is not a strict weak order.
- HamsouGlobal.StableIsEverywhere: failure-free runs; messages may be lost, delayed and reordered but are delivered at most once, and each call of a node has its own number. A broadcast puts its messages on the network at once.
- HamsouConvergence.ReplicasConverge: replicas that stabilise related calls in different orders can disagree (QuietReplicasCanDiffer); nothing is claimed of the current states of two replicas.
- HamsouAgreement.QuietReplicasConverge: stable states can also happen to be equal when a call came late, if later calls about the same values hide it; the exact condition is about the order of related calls.
- Hamsou objects: Stack (its two relations differ), the relational courseware's suffix order (its relation is not transitive) and its links, which are inserted unchecked; the CRDT variants; the bound of 350000 calls per node; node ids are counted from 0.
- EcroTopoSort.Handler.FullTopoSort: the edges join calls of the call set, as exeLocal and exeRemote insert them and commitStableCalls removes them; which edges are inserted, cycle resolution and the tie-break (which compares with a character that `resolution` never returns) are left out, so acyclicity is a hypothesis.
- EcroCourseware.PrefilledIsReplay: says which calls a rebuild loses, not for which orders their loss happens to make no difference at the end.
- EcroCourseware.ReplayKeepsIntegrity: says nothing about departments of instructors, which UpdateInstructorOther does not check.
- Retry loops of the concurrent maps: a lost exchange is explained (LoserLostToAWrite), but that a writer who is redirected again and again gets through is not claimed.
- Grampa: table migrations inside the flat tree and the choice of splits.
- Sockets, threads, timers, heartbeats, workload files, ConcurrentMap_Crude, the other protocols and the SQL analysis.
