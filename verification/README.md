# Models of the broker's core algorithms

Aquilon is a configuration broker. This project models the algorithms of it that
do not depend on the database, the network or the web framework, and proves what
they promise.

* **Locks** (`LockKeys`, `WorkerKeys`, `LockProtocol`, `LockRuns`, `LockDeadlock`, `LockLabels`,
  `LockService`, `LockQueue`).
  A lock key holds shared and exclusive items in several namespaces. `LockProtocol`
  describes the queue as a step system for any number of threads, where every step
  is what one thread does between two points at which it gives up the mutex, and
  waiting threads may wake up at any time. What is granted is kept apart from the
  label a key carries, because `acquire` writes the label before it knows whether the
  key is refused. `LockQueue` is the object itself; each of its methods is proved to be
  a step of that system. `LockRuns` is about whole runs: exclusion, no lost wake-ups,
  order and progress. `LockDeadlock` and `LockService` are about threads that hold
  several keys: which waiting keys can still be served, and which never will.
  `LockLabels` says when the state label of a key is true.
* **Locations** (`Locations`, `LocationTable`, `LocationMerge`, `PopulateLinks`). The
  link table has a row for every location and each of its ancestors, with the distance.
  It is proved to be the ancestor relation of the plain parent map after any run of
  creations and moves. The migration script is proved to build the same table, and
  `merge` to find the lowest location that contains both.
* **Service chooser** (`ServiceChoice`, `ServiceCache`, `ServiceSteps`, `ServiceChooser`,
  `ServiceRuns`). The stages are written down once as functions of lists; the `Chooser`
  object works them off in place and is proved to succeed exactly when every required
  service can be served, to choose a best instance for each, and to book the choice.
  `ServiceRuns` follows many choosers that share one cache.
* **External systems** (`HostDiff`, `Transactions`). The plan that turns one snapshot of
  a host into another, and the two run-then-undo transactions, against any external
  system that answers commands.
* **Request status** (`RequestStatus`). The log of a request, its bounded debug records
  and its subscribers.
* **Smaller pieces**: all aliases of a DNS record (`Aliases`, `Sorting`), the tree of URL handlers
  (`Handlers`), dictionary options between client and broker (`DictOptions`, `Text`, `Options`), and
  collecting features in one pass (`Features`).

Objects that the program changes in place are classes here; what they compute is a
function on values, and the theorems are about that function. `View()`, `Now()`, `sys` and
similar members give the value an object stands for.

Some behaviour of the code differs from what its documentation or its names suggest.
The models follow the code, and the difference is stated as a lemma:

* the state label of a granted key can say "acquiring" or "released"
  (`LabelOfGrantedKeyCanLie`, `ReleasedLabelCanStick`; `TruthfulStep` says which steps make
  it wrong, and `LabelsOfFreshKeysAreTrue` that keys made for one use are safe);
* threads that hold a key while they wait for another one can wait for good
  (`TwoKeysDeadlock`; `ServedExactlyOutsideCircles` says which keys can still be served);
* the minimum location of hosts that have different roots can leave out a host
  (`MinimumForgetsAHost`; `MinimumExactlyRight` says when it is right);
* two aliases whose names print the same are reported once (`EqualNamesHideAnAlias`;
  `AllAliases` says that all are found exactly when names differ);
* two new addresses of a host that share a name or an address can make the comparison of
  snapshots break off (`SharedAddressBreaksOff`; `BreaksOffExactly` says when);
* a list of instances that a chooser shares with its cache is shrunk in the cache as
  well, which can cost a later client its binding (`SharedListKeepsBinding`,
  `SharedListLosesBinding`);
* an action whose failure was ignored is rolled back all the same
  (`IgnoredFailureIsUndoneAnyway`; `RestoredExactly` says when that does no harm), and an
  Infoblox group that ends with another exception is not rolled back
  (`EscapedGroupIsLeftAsItIs`; `UnfinishedIsUndoneExactly` says when that does no harm);
* a request can miss a handler that its path fits (`LiteralShadowsVariable`).

An empty dictionary option would not come back from the broker either
(`ReadsBackOnlyWithoutCommas`), but the client never holds one.

Python's dictionaries, sets and lists are `map`, `set` and `seq`; iteration over a
dictionary or a set is in an arbitrary order wherever the result does not depend on it.
Integers are unbounded in Python and here. Client counts, service maps, snapshots and the
answers of external systems are parameters.

## Model

| member | source | states |
|---|---|---|
| `LockKeys.ConflictsSymmetric` | lib/aquilon/locks.py:144-167 | whether two keys conflict does not depend on which of them asks |
| `LockKeys.MergeConflicts` | lib/aquilon/locks.py:169-195 | a merged key conflicts with a key exactly when some key of the list does, although shared items that are also exclusive are dropped |
| `LockKeys.LockKey.Blocks` | lib/aquilon/locks.py:144-167 | the blockers are exactly the items both keys want and one of them exclusively; there are some exactly when the keys conflict |
| `LockKeys.LockKey.Merge` | lib/aquilon/locks.py:169-195 | the new key has the union of the exclusive items, and the union of the shared ones less what is exclusive |
| `LockKeys.LockKey.Absorb` | lib/aquilon/locks.py:184-188 | merging in one key adds exactly its items to either set |
| `LockKeys.LockKey.Normalize` | lib/aquilon/locks.py:190-194 | only shared items that are also held exclusively are dropped |
| `WorkerKeys.NoLockKey` | lib/aquilon/worker/locks.py:34-39 | an initialised key without items |
| `WorkerKeys.CompileKey` | lib/aquilon/worker/locks.py:58-88 | which items go into which set for a profile, a domain or a global compile; refused exactly for a profile without the domain it has to be locked with |
| `WorkerKeys.PlenaryKey` | lib/aquilon/worker/locks.py:91-128 | every one of the six items that is named goes into the wanted set under its own name, and the compile lock is shared |
| `WorkerKeys.SyncKey` | lib/aquilon/worker/locks.py:131-143 | exclusive on one item of its own namespace |
| `WorkerKeys.ConflictTable` | lib/aquilon/worker/locks.py:58-143 | which of these keys exclude each other, for all pairs: two profiles only if equal, a domain with its profiles, two plenary keys that share an item if one is exclusive, the global compile with every compile and plenary key |
| `WorkerKeys.PlenaryClash` | lib/aquilon/worker/locks.py:91-128 | two plenary keys conflict exactly when one is exclusive and they name the same personality, service, cluster member, network device, virtual switch or network |
| `WorkerKeys.MergesExcludeGlobalCompile` | lib/aquilon/worker/locks.py:74-86 | any merge of compile and plenary keys keeps out the global compile |
| `LockQueues.LockQueue.Blocked` | lib/aquilon/locks.py:58-76 | true exactly when a key queued before the given one, or any queued key if that one is not queued, conflicts with it |
| `LockQueues.LockQueue.StartAcquire` | lib/aquilon/locks.py:47-48 | the part of `acquire` before the mutex is a request step |
| `LockQueues.LockQueue.EnterAcquire` | lib/aquilon/locks.py:49-56 | the first part under the mutex is an enter step: a duplicate is refused and changes no queue, otherwise the key is queued last and is granted, or its thread sleeps |
| `LockQueues.LockQueue.WakeUp` | lib/aquilon/locks.py:54-56 | coming back from waiting, notified or not, is a wake step: test again, then hold or sleep |
| `LockQueues.LockQueue.StartRelease` | lib/aquilon/locks.py:78-79 | the part of `release` before the mutex |
| `LockQueues.LockQueue.RemoveKey` | lib/aquilon/locks.py:80-82 | takes exactly this key out of the queue and notifies every sleeper |
| `LockQueues.LockQueue.FinishRelease` | lib/aquilon/locks.py:83 | the rest of `release` |
| `LockProtocol.InvStep` | lib/aquilon/locks.py:47-83 | every step of every thread keeps the invariant: distinct keys, threads and keys agree, a granted key conflicts with nothing queued before it, and a sleeper nobody notified is blocked |
| `LockProtocol.ExclusionFromOrder` | lib/aquilon/locks.py:53-76 | hence no two granted keys conflict |
| `LockProtocol.WithoutAhead` | lib/aquilon/locks.py:80-81 | removing a key lowers the number of keys ahead of another one exactly when it was ahead |
| `LockRuns.SafetyOverRuns` | lib/aquilon/locks.py:47-83 | after any run from the empty queue, with spurious wake-ups: exclusion, and no wake-up is lost |
| `LockRuns.ExclusiveItemsAreAlone` | lib/aquilon/locks.py:144-167 | after any run, an item held exclusively by a granted key is in no other granted key |
| `LockRuns.AheadAccounting` | lib/aquilon/locks.py:53-56 | during any run the number of keys ahead of a waiting key falls by one for each of them that leaves, and never grows |
| `LockRuns.GrantedInOrder` | lib/aquilon/locks.py:53-82 | of two conflicting keys the later one is granted only after the earlier one has been removed |
| `LockRuns.HeadAdvances` | lib/aquilon/locks.py:54-82 | if each thread has one key at most, the first key of a queue can always take a step that is no spurious wake-up and brings its removal nearer |
| `LockRuns.CanBeServed` | lib/aquilon/locks.py:47-83 | every queued key can be granted within three steps for each key ahead of it and one for itself |
| `LockRuns.NobodyIsStuck` | lib/aquilon/locks.py:47-83 | so it is after every run in which threads ask for one key at a time |
| `LockRuns.HeadOwnerMovesUnlessAsleep` | lib/aquilon/locks.py:54-82 | without that assumption: the owner of the first key can move, unless it sleeps for another key while it holds the first |
| `LockDeadlock.DeadlockIsForGood` | lib/aquilon/locks.py:47-83 | where threads wait for keys that keys of their own circle are in the way of, no continuation of any threads ever grants one of these keys |
| `LockDeadlock.TwoKeysDeadlock` | lib/aquilon/locks.py:47-56 | a run of two threads with two keys each, after which the second key of either is granted in no continuation |
| `LockService.ServedExactlyOutsideCircles` | lib/aquilon/locks.py:47-83 | for threads with any number of keys: a waiting key can still be granted exactly when its thread is in no circle of threads that wait for, or are about to queue, keys held up by the circle |
| `LockService.CanStillBeServed` | lib/aquilon/locks.py:47-83 | how to get there: somebody can always leave, close or get a key, and that comes to an end |
| `LockService.OneKeyFormsNoCircle` | lib/aquilon/locks.py:47-56 | threads with one key each form no circle |
| `LockLabels.TruthfulStep` | lib/aquilon/locks.py:47-57 | true labels of granted keys stay true exactly unless a step asks for a granted key or finishes releasing a key that has been granted again |
| `LockLabels.LabelsOfFreshKeysAreTrue` | lib/aquilon/locks.py:47-83 | after any run in which no key is asked for twice, the labels of granted keys are true |
| `LockLabels.LabelOfGrantedKeyCanLie` | lib/aquilon/locks.py:47-52 | a run after which a granted key carries the label "acquiring" |
| `LockLabels.ReleasedLabelCanStick` | lib/aquilon/locks.py:78-83 | a run after which a granted key carries the label "released" |
| `Locations.ParentsRankLower` | lib/aquilon/aqdb/model/city.py:31 | the valid parents of every kind of location have a smaller rank |
| `Locations.ParentsAndChildrenAgree` | lib/aquilon/aqdb/model/rack.py:32 | the valid parents agree with a table of what may be below each kind of location |
| `Locations.NoCycle` | lib/aquilon/aqdb/model/location.py:161-162 | where every parent is of a valid kind, nobody is above itself |
| `Locations.ClosureUnique` | lib/aquilon/aqdb/model/location.py:216-240 | a tree has only one correct link table |
| `Locations.MovedIsClosure` | lib/aquilon/aqdb/model/location.py:157-198 | moving a subtree turns the table of the old tree into the table of the new one, for moved and unmoved locations and shared ancestors |
| `LocationTables.TableAlwaysAgrees` | lib/aquilon/aqdb/model/location.py:126-198 | after any run of creations and moves, accepted or refused, the table is the ancestor relation and the tree has no cycle |
| `LocationTables.GraftMeetsNoRow` | lib/aquilon/aqdb/model/location.py:164-193 | every row a move inserts is new or was marked for deletion, so that no primary key is used twice |
| `LocationTables.LocationTable.Create` | lib/aquilon/aqdb/model/location.py:126-148 | the constructor adds exactly the rows to the parent and to its ancestors; refused for a wrong kind of parent or one that is not stored |
| `LocationTables.LocationTable.UpdateParent` | lib/aquilon/aqdb/model/location.py:157-198 | refused without a parent or for a wrong kind, otherwise exactly the move; the table stays correct |
| `LocationTables.LocationTable.DeleteOldLinks` | lib/aquilon/aqdb/model/location.py:168-176 | marks exactly the rows from the subtree to the ancestors of its root, read from the table as it was |
| `LocationTables.LocationTable.AddNewLinks` | lib/aquilon/aqdb/model/location.py:178-193 | adds exactly the rows from the subtree to the new parent and its ancestors, with their distances |
| `LocationMerging.GetParts` | lib/aquilon/aqdb/model/location.py:109-112 | the ancestors by falling distance are the way from the root down |
| `LocationMerging.Merge` | lib/aquilon/aqdb/model/location.py:114-124 | the lowest location that contains both; None exactly when the roots differ |
| `LocationMerging.LowestUnique` | lib/aquilon/aqdb/model/location.py:114-124 | there is only one lowest location for a set of locations |
| `LocationMerging.MinimumLocation` | lib/aquilon/aqdb/model/cluster.py:137-145 | for hosts that share a root, the lowest location that contains them all |
| `LocationMerging.MinimumExactlyRight` | lib/aquilon/aqdb/model/cluster.py:137-145 | for any hosts the result is right exactly when they share a root, or when their roots fall into blocks of equal ones that end with a different one |
| `LocationMerging.NoneExactlyInBlocks` | lib/aquilon/aqdb/model/cluster.py:139-145 | the roots that leave the loop with None are exactly those blocks |
| `LocationMerging.MinimumForgetsAHost` | lib/aquilon/aqdb/model/cluster.py:141-144 | three hosts of two trees for which a host is left out |
| `LocationMerging.MinimumIgnoresOrder` | lib/aquilon/aqdb/model/cluster.py:137-145 | neither the order of the hosts nor repetitions matter |
| `LinkPopulation.PopulateLinks` | upgrade/1.8.5/populate_location_link.py:50-67 | the migration ends and builds the table of the tree |
| `LinkPopulation.BatchBuildsTheSameTable` | upgrade/1.8.5/populate_location_link.py:50-67 | which is the table that any run of creations and moves has kept up to date |
| `ServiceChoice.AlignmentMeaning` | lib/aquilon/worker/services.py:179-187 | a service is aligned exactly when a parent uses or requires it, and has an instance exactly when a parent uses one |
| `ServiceChoice.LatestParentWins` | lib/aquilon/worker/services.py:179-181 | the instance is the last one that the last parent using the service uses |
| `ServiceChoice.NarrowKeepsPastUse` | lib/aquilon/worker/services.py:286-364 | what alignment, capacity and past use leave is free and aligned; an existing binding that survived is the only one left |
| `ServiceChoice.BoundAndUnboundDisjoint` | lib/aquilon/worker/services.py:497-506 | no instance is both bound and given up, and the old bindings less the one plus the other are the chosen ones |
| `ServiceChoice.ChoiceMeaning` | lib/aquilon/worker/services.py:198-222 | the chosen instance is mapped, free, the aligned one if there is one, the old one if that survived, and otherwise shares most servers with what was fixed before and has fewest clients among those that do |
| `ServiceChoice.ServableMeaning` | lib/aquilon/worker/services.py:286-348 | a service can be given an instance exactly when a mapped one has room, and is the prescribed one where there is one |
| `ServiceChoice.HostWithRoomIsServed` | lib/aquilon/worker/services.py:310-323 | a new host is served when a mapped instance has no limit or one place left |
| `ServiceChoice.ChosenServices` | lib/aquilon/worker/services.py:173-177 | a run chooses for the required services, and keeps the other bindings unless only required ones are wanted |
| `ServiceChoice.ObjectsMeaning` | lib/aquilon/worker/services.py:366-380 | behind an instance are the hosts and clusters of its servers, and the aliases of those that have neither |
| `ServiceChoice.OverlapMeaning` | lib/aquilon/worker/services.py:437-438 | the overlap is the number of objects that are fixed and back the instance |
| `ServiceChoice.SettledMeaning` | lib/aquilon/worker/services.py:395-400 | fixed at first are the objects behind the services that have one instance left |
| `ServiceChoice.FixedMeaning` | lib/aquilon/worker/services.py:402-416 | and then those behind the services decided before |
| `ServiceCache.ChooserCache.CacheServiceMaps` | lib/aquilon/worker/services.py:34-44 | after it the cache has what it had or what the maps say for each service, and offers nothing else than before |
| `ServiceCache.ChooserCache.ClientCount` | lib/aquilon/worker/services.py:46-51 | remembering a count changes no count |
| `ServiceCache.ChooserCache.Allocate` | lib/aquilon/worker/services.py:53-56 | only this instance's count grows, by the footprint |
| `ServiceCache.ChooserCache.Unallocate` | lib/aquilon/worker/services.py:58-61 | only this instance's count falls, by the footprint |
| `ServiceChooser.Chooser.VerifyInit` | lib/aquilon/worker/services.py:173-187 | stages the existing bindings unless only required ones are wanted, and finds the aligned services |
| `ServiceChooser.Chooser.FindServiceInstances` | lib/aquilon/worker/services.py:267-280 | stages the cached list itself, or reports an error if there is nothing |
| `ServiceChooser.Chooser.ChooseAligned` | lib/aquilon/worker/services.py:286-305 | an error exactly when the parents have no instance or one that is not mapped; otherwise that instance alone is left |
| `ServiceChooser.Chooser.InstanceFull` | lib/aquilon/worker/services.py:307-323 | full exactly when there is a limit and what the owner adds does not fit: one for a host, its size for a cluster and a required service, nothing for a metacluster, and nothing more for an existing binding |
| `ServiceChooser.Chooser.ChooseAvailableCapacity` | lib/aquilon/worker/services.py:325-348 | the full instances are taken out of the list, and out of the cache when the list is shared with it; an error exactly when nothing is left |
| `ServiceChooser.Chooser.ChoosePastUse` | lib/aquilon/worker/services.py:350-364 | the existing binding alone is left if it is among several |
| `ServiceChooser.Chooser.AddServers` | lib/aquilon/worker/services.py:366-380 | adds the hosts and clusters behind an instance, and aliases only where there is neither |
| `ServiceChooser.Chooser.CountServers` | lib/aquilon/worker/services.py:382-400 | collects the servers of exactly the services that have one instance left |
| `ServiceChooser.Chooser.ChooseAffinity` | lib/aquilon/worker/services.py:418-451 | leaves exactly the instances that share most servers |
| `ServiceChooser.Chooser.ChooseLeastLoaded` | lib/aquilon/worker/services.py:453-469 | leaves exactly the instances with fewest clients |
| `ServiceChooser.Chooser.ChooseRandom` | lib/aquilon/worker/services.py:471-478 | leaves one of the instances, any |
| `ServiceChooser.Chooser.ReduceServiceInstances` | lib/aquilon/worker/services.py:402-416 | one best instance is left and its servers are fixed |
| `ServiceChooser.Chooser.FinalizeServiceInstances` | lib/aquilon/worker/services.py:480-495 | every service is chosen and there is no error once each has one instance |
| `ServiceChooser.Chooser.AnalyzeChanges` | lib/aquilon/worker/services.py:497-506 | finds exactly what is newly bound and what is given up |
| `ServiceChooser.Chooser.ApplyChanges` | lib/aquilon/worker/services.py:160-171 | the bindings lose what is given up and gain what is newly bound, and the cached counts move by their footprints |
| `ServiceChooser.Chooser.SetRequired` | lib/aquilon/worker/services.py:198-222 | succeeds exactly when each required service has something to choose from, then makes a good choice, books it, and leaves no newly bound instance over its limit; otherwise it changes no binding and no count; and what it does to the lists in the cache |
| `ServiceRuns.RunChooser` | lib/aquilon/worker/services.py:198-222 | a run of a chooser, seen from outside, is a turn of one client |
| `ServiceSteps.MovedInNumbers` | lib/aquilon/worker/services.py:160-171 | what booking does to a count: one for a host, its size for a cluster and a required service, nothing otherwise |
| `ServiceSteps.LeftMeaning` | lib/aquilon/worker/services.py:325-336 | an instance leaves the cached list exactly when it has no room and alignment has not replaced the list |
| `ServiceRuns.CountsFollowBindings` | lib/aquilon/worker/services.py:160-171 | over any number of runs that share the cache, the count of an instance changes exactly as the footprints of those bound to it |
| `ServiceRuns.NeverOverbooked` | lib/aquilon/worker/services.py:310-348 | if no instance is over its limit, no number of runs takes one over it |
| `ServiceRuns.SharedListKeepsBinding` | lib/aquilon/worker/services.py:273-277 | a client that would keep its binding with a fresh cache keeps it after another client's run exactly when alignment had replaced the shared list, or the instance was not full for that client |
| `ServiceRuns.SharedListLosesBinding` | lib/aquilon/worker/services.py:325-336 | a case in which it fails altogether |
| `HostDiff.MatchIsCleanSplit` | lib/aquilon/worker/processes.py:966-1014 | for a one-to-one new snapshot the loop splits the old entries into deleted and matched and the new ones into matched and added, uses none twice, and pairs entries by name or address that agree on having a primary name |
| `HostDiff.NothingReAddedNeedlessly` | lib/aquilon/worker/processes.py:968-988 | an old entry's name, or its address if the name is gone, is added again only if the two differ in having a primary name |
| `HostDiff.UpdateHost` | lib/aquilon/worker/processes.py:959-1021 | the plan is what the matching found, with the changed pairs split into address and name updates; additions are sorted by primary name and deletions the other way round, so that entries without one are added first and deleted last; when it breaks off |
| `HostDiff.PlannedAreChanges` | lib/aquilon/worker/processes.py:997-1004 | address updates are exactly the pairs whose address, MAC or comments differ, and name updates those whose name or interface differs |
| `HostDiff.NothingToDoExactly` | lib/aquilon/worker/processes.py:959-1021 | the plan is empty exactly when the old entries are those of the new snapshot, up to which primary name they have |
| `HostDiff.BreaksOffExactly` | lib/aquilon/worker/processes.py:1009-1010 | for snapshots as they are built, deleting fails exactly when an entry would be matched with one that shares its name or its address with an entry matched before |
| `HostDiff.SharedAddressBreaksOff` | lib/aquilon/worker/processes.py:1009-1010 | two names with one address are such a case |
| `HostDiff.PlanReachesNew` | lib/aquilon/worker/processes.py:959-1014 | as one simultaneous edit the plan turns the old entries into the new ones, up to the primary name |
| `DSDBTransactions.FailedCommitIsUndone` | lib/aquilon/worker/processes.py:475-545 | undoing a failed commit restores the state it started from, if no ignored failure is undone with an effect |
| `DSDBTransactions.GoesOnMeaning` | lib/aquilon/worker/processes.py:484-498 | after a failed command the run goes on exactly when there is a filter that finds something in its output or its errors, and after another exception exactly when there is a filter |
| `DSDBTransactions.CommitStopsExactly` | lib/aquilon/worker/processes.py:475-500 | the loop stops at the first action after which it does not go on, with the rollbacks of those before it |
| `DSDBTransactions.FailuresAreCounted` | lib/aquilon/worker/processes.py:505-523 | as many failed rollbacks are reported as there are |
| `DSDBTransactions.RestoredExactly` | lib/aquilon/worker/processes.py:475-545 | in a system of entries, with any number of ignored failures: the start is restored exactly when no ignored failure is undone with an effect, of those that are the first on their entry |
| `DSDBTransactions.RestoredExactlyWhenNeutral` | lib/aquilon/worker/processes.py:475-545 | for actions on different entries: exactly when none of the failures that would be ignored, each looked at in the state at the start, would be undone with an effect |
| `DSDBTransactions.CampusesRestoredExactly` | lib/aquilon/worker/processes.py:570-583 | for any list of campuses to add and delete, repeated or not: exactly when, of the actions that are reached, the first on each campus succeeds |
| `DSDBTransactions.NothingIgnored` | lib/aquilon/worker/processes.py:487-500 | without ignored failures that condition holds |
| `DSDBTransactions.RollbacksSucceed` | lib/aquilon/worker/processes.py:502-525 | and then no rollback fails |
| `DSDBTransactions.IgnoredFailureIsUndoneAnyway` | lib/aquilon/worker/processes.py:487-500 | a case in which undoing an ignored failure leaves something that was not there |
| `DSDBTransactions.DSDBRunner.AddAction` | lib/aquilon/worker/processes.py:547-562 | refused exactly for an error filter without a message |
| `DSDBTransactions.DSDBRunner.CommitActions` | lib/aquilon/worker/processes.py:475-500 | runs the actions up to the first failure that is not ignored, and remembers a rollback for each action that ran or was ignored |
| `DSDBTransactions.DSDBRunner.Rollback` | lib/aquilon/worker/processes.py:502-525 | tries every rollback, last one first, whatever becomes of the others, counts the failures, and empties the list |
| `DSDBTransactions.DSDBRunner.CommitOrRollback` | lib/aquilon/worker/processes.py:537-545 | a failed commit is rolled back, with everything still in the list from before |
| `InfobloxTransactions.UndoRestores` | lib/aquilon/worker/ib_services.py:27-42 | what the loop has remembered undoes what it has done, if an action that returned nothing has done nothing |
| `InfobloxTransactions.CommitStopsExactly` | lib/aquilon/worker/ib_services.py:32-37 | the loop stops at the first action that raises, with the rollbacks of those before it that returned a result |
| `InfobloxTransactions.UndoStopsExactly` | lib/aquilon/worker/ib_services.py:38-41 | rolling back stops after the first rollback that raises |
| `InfobloxTransactions.FailedGroupIsUndone` | lib/aquilon/worker/ib_services.py:37-42 | a group that fails with an Infoblox error restores the start |
| `InfobloxTransactions.UnfinishedIsUndoneExactly` | lib/aquilon/worker/ib_services.py:27-42 | whether a group that does not finish is undone, told from the start for actions on different entries: exactly when the first exception will be an Infoblox error or nothing before it would change anything |
| `InfobloxTransactions.EscapedIsUndoneExactly` | lib/aquilon/worker/ib_services.py:32-37 | ended by another exception, and with actions that change something when they return a result: exactly when none with a rollback had returned one |
| `InfobloxTransactions.NothingRemembered` | lib/aquilon/worker/ib_services.py:34-35 | for any actions, nothing is remembered exactly when none returns a result, and then nothing has been done |
| `InfobloxTransactions.EscapedGroupIsLeftAsItIs` | lib/aquilon/worker/ib_services.py:37-42 | a group that another exception ends, with a change that stays |
| `InfobloxTransactions.IBServiceGroup.CommitOrRollback` | lib/aquilon/worker/ib_services.py:27-42 | the state it leaves the system in, how it ends, and that the actions are forgotten only if all have run |
| `InfobloxTransactions.IBServiceGroup.UndoAll` | lib/aquilon/worker/ib_services.py:38-41 | the rollbacks are run up to the first that raises |
| `RequestStatuses.SubscriberSeesEverythingOnce` | lib/aquilon/worker/messages.py:121-168 | for any run, a subscriber added once receives what was retained when it joined, then every record up to the finish, in order and once each, and then exactly one finish |
| `RequestStatuses.RetentionIsExact` | lib/aquilon/worker/messages.py:121-131 | all records that are not debug are kept, and of the debug records the last ones up to the limit |
| `RequestStatuses.KeptByLevel` | lib/aquilon/worker/messages.py:127-131 | a record of level 10 or less is kept exactly while fewer than 10000 such records have followed it, and any other record always |
| `RequestStatuses.PresentAppend` | lib/aquilon/worker/messages.py:151-156 | records are handed over in order |
| `RequestStatuses.PresentFew` | lib/aquilon/worker/messages.py:151-156 | and one by one, those that are gone left out |
| `RequestStatuses.SlotsAppend` | lib/aquilon/worker/messages.py:124-131 | one more record takes away at most the oldest debug record that was left |
| `RequestStatuses.RequestStatus.Publish` | lib/aquilon/worker/messages.py:121-133 | appends to the log, after which the kept records are exactly those of a level above 10 and the last 10000 others, and hands the record to every subscriber |
| `RequestStatuses.RequestStatus.AddSubscriber` | lib/aquilon/worker/messages.py:135-145 | the newcomer receives what is retained, and the finish at once if the request has finished |
| `RequestStatuses.RequestStatus.NotifySubscriber` | lib/aquilon/worker/messages.py:147-158 | hands over the records after the cursor that are still there, and moves the cursor of those attached |
| `RequestStatuses.RequestStatus.FinishRequest` | lib/aquilon/worker/messages.py:160-168 | every subscriber gets one finish and is detached |
| `Aliases.AllAliases` | lib/aquilon/aqdb/model/dns_record.py:208-225 | ends on every finite graph, with cycles too; returns only aliases that reach the record, sorted by name, each name once; returns all of them exactly when no two share a name |
| `Aliases.EqualNamesHideAnAlias` | lib/aquilon/aqdb/model/dns_record.py:219 | a record with two aliases that print the same |
| `Aliases.Progress` | lib/aquilon/aqdb/model/dns_record.py:217-222 | each round finds a new name or shortens the way to the next new one |
| `Aliases.EverythingFound` | lib/aquilon/aqdb/model/dns_record.py:215-222 | with an empty queue and distinct names everything that reaches the record has been found |
| `Sorting.SortSorts` | lib/aquilon/aqdb/model/dns_record.py:225 | sorting by a total preorder gives a sorted permutation |
| `Sorting.LexMeaning` | lib/aquilon/aqdb/model/dns_record.py:225 | a text comes before another exactly when it is its beginning or has the smaller character where they first differ |
| `Handlers.RestServer.InsertHandler` | lib/aquilon/worker/resources.py:312-359 | exactly the entry for the shape of the path and the method changes; the pages of all prefixes are there; no page is replaced, so that a variable keeps its first name |
| `Handlers.RestServer.AddEntries` | lib/aquilon/worker/resources.py:518-522 | after any list of commands the tree is the flat table of the last command for each shape and method |
| `Handlers.LastDecides` | lib/aquilon/worker/resources.py:355-359 | of several commands for a shape and a method the last one counts |
| `Handlers.VariableMeaning` | lib/aquilon/worker/resources.py:69-72 | a component of a path is a variable exactly when it is "%(name)s", with any name without a line feed; one line feed may follow |
| `Handlers.RestServer.Find` | lib/aquilon/worker/resources.py:87-131 | a request is answered by the handler of the shape it is routed to |
| `Handlers.RestServer.ChildFor` | lib/aquilon/worker/resources.py:87-131 | a literal child is preferred to the variable, after an output style has been cut off |
| `Handlers.Chop` | lib/aquilon/worker/resources.py:91-103 | what is left is the component without a dot and the first style it bears, or the whole component if it bears none |
| `Handlers.RouteIsUnshadowed` | lib/aquilon/worker/resources.py:87-131 | a request is routed to a shape exactly when the shape fits it and at no variable has a literal sibling that fits as well |
| `Handlers.LiteralShadowsVariable` | lib/aquilon/worker/resources.py:105-131 | so a request can miss a handler whose path it fits |
| `DictOptions.OptionValues.StoreInDict` | lib/aquilon/client/optparser.py:58-81 | refused exactly for a comma; otherwise the dictionary is that of all arguments given so far |
| `DictOptions.ArgumentMeaning` | lib/aquilon/client/optparser.py:65-66 | the key is what is before the first "=" and the value what follows it; without one all is the key and the value is empty |
| `DictOptions.PutAllMeaning` | lib/aquilon/client/optparser.py:65-81 | the dictionary holds for every key exactly the values given for it, in order |
| `DictOptions.Serialise` | bin/aq.py:461-473 | the text is all pairs, by key, joined with commas |
| `DictOptions.ForceDict` | lib/aquilon/utils.py:229-246 | fails exactly when some item has no "=" (a list is no key), and otherwise gives the dictionary of the pairs |
| `DictOptions.RoundTrip` | lib/aquilon/utils.py:229-246 | for every non-empty list of accepted arguments, what the client collects is what the broker reads, with the order of keys, empty values and "=" in values |
| `DictOptions.ReadsBackOnlyWithoutCommas` | lib/aquilon/client/optparser.py:61-63 | a dictionary reads back exactly when it is not empty and no key or value has a comma, so refusing commas is exactly what is needed |
| `DictOptions.ReadingIsStable` | lib/aquilon/utils.py:229-246 | whatever the broker accepts reads back as the same dictionary when it is written again |
| `Text.SplitUndoesJoin` | lib/aquilon/utils.py:231 | splitting undoes joining when no item has the separator |
| `Text.SplitGrows` | lib/aquilon/utils.py:231 | and gives more pieces when one has it |
| `Features.HardwareFeatures` | lib/aquilon/aqdb/model/feature.py:275-286 | the hardware features bound for exactly this model |
| `Features.InterfaceFeatures` | lib/aquilon/aqdb/model/feature.py:304-317 | the interface features whose links do not ask for another name or model |
| `Features.NonhostFeatures` | lib/aquilon/aqdb/model/feature.py:320-344 | the one pass gives what the two simple functions give, with a key for exactly the interfaces that have features |

## Left out

- SQLAlchemy sessions, flushing and caching: the link table is a map from (child, parent) to the distance, and a row that is deleted and inserted again counts as updated.
- Cached collections of other locations (`_parent_dict`, `_child_links`) after a move: only the moved location's cache is reset.
- `Location.parent_ids`, `sysloc` and `get_p_dict`: plain queries.
- Threads and Python's `Condition`: steps under one mutex with explicit sleeping and notified threads; that a holder releases at all is an assumption of every progress statement.
- A release by a thread that did not acquire, or of a key that is not granted: keys are used in `with` statements.
- `ExternalKey`, which differs from `SyncKey` only in its namespace and its list of items, and the check that items are strings.
- Items are pairs of namespace and name; the text "name/item" for log messages is not built.
- `LockRuns.HeadAdvances`: for threads with one key; `ServedExactlyOutsideCircles` is what holds without that.
- `LockService.ServedExactlyOutsideCircles`: for keys that one thread at a time has in hand; where several threads ask for one key object, all but one are refused and go on.
- `Chooser.set_single`, plenaries and `stash_services`: the same stages for one service, and writing of templates.
- `ServiceChooser.Chooser.constructor`: takes at most one existing binding for each service, as the program itself assumes when it indexes them by service.
- `ServiceRuns.CountsFollowBindings`: the owner and the required services of a client stay the same over a run, since the footprint depends on them.
- `ServiceRuns.NeverOverbooked`: needs footprints that are not negative; a cluster may be created with a negative size.
- `ServiceChooser.Chooser.FinalizeServiceInstances`: says nothing when some service has not exactly one instance, which `SetRequired` rules out.
- `DSDBTransactions.RestoredExactly`: actions that share an entry have rollbacks that overwrite it; others on one entry can cancel each other, and for these and for systems without entries `FailedCommitIsUndone` holds in one direction.
- `InfobloxTransactions.UnfinishedIsUndoneExactly`: for actions on different entries; two on one entry can cancel each other.
- `HostDiff.PlanReachesNew`: one simultaneous edit; the order of DSDB commands for chains of renames or swapped addresses, and clearing a MAC address, are up to DSDB.
- Building the snapshots, the text of DSDB commands, and `IBServices` with its HTTP requests.
- `Aliases.AllAliases`: does not say which of several aliases with one name is returned (the last one the search comes to).
- `StatusCatalog` and its waiters, and the description of a request.
- The branch of `finish` for a subscriber that is behind: subscribers never are when the mutex is held.
- Comparing names as text is by code point; two names in different DNS environments that print the same count as the same name.
- The values bound to path variables, content types, argument checks and rendering of requests; children of Twisted's `Resource` are a dictionary that is looked up before `getChild` is called.
- The upper-casing of HTTP methods before they are used as keys.
- Logging, help texts, authorisation, formatters, host and cluster lifecycles.
