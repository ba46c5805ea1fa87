# Proofs about the concurrent, memory and parsing cores

This project models the parts of the repository in which much depends on little code, and
proves what they are for. Each module follows one component.

- **Levelized mutexes** (`LevelLists`, `LevelListProofs`, `ListVerdicts`, `LockMachine`,
  `LockGroups`, `LockRuns`, `MutexObjects`, `MutexLists`, `MutexGroups`, `MultiLockers`). A thread
  takes mutexes at falling levels, and groups of one level in address order. `LockMachine` is a
  step system of any number of threads in which a blocking lock is two steps, passing the check
  and being granted; its main result is that no set of threads ever waits for itself.
  `ListVerdicts` says what is let through and what is refused, `LockGroups` under which exact
  condition `MultiUnlock` reaches its end, and `LockRuns` that free mutexes are granted and that
  unlocking leads back. The `Mutex*` modules are the imperative code: objects linked into a list
  per thread, updated in place, each method tied to the functions of `LevelLists`; `MultiLockers`
  puts locking and unlocking a group together.
- **Reference-linked smart pointers** (`OwnerRings`, `RefLinks`, `SmartPointers`). `RefLinks` has
  the nodes and `Swap` with all its aliasing cases; `SmartPointers` keeps linked objects in step
  with rings as values; `OwnerRings` shows that every object is destroyed exactly once.
- **Small-object allocator** (`Chunks`, `SlotPools`, `FixedAllocators`, `SmallObjects`). The free
  list hidden in the bytes of a chunk, the three cursors over a growing sequence of chunks, and
  the routing by size to a row of allocators that stay apart from each other. Clients may write
  anything into live blocks at any time.
- **Operator-precedence parser** (`Grammar`, `ExpressionParsing`, `OperatorBinding`,
  `FailedParses`, `Printing`, `TopLevelParsing`, `KaleidoscopeParser`). The parser as functions on
  token sequences, exactly characterised by the trees it accepts, by how the operators bind, and
  by where it gives up; the parser as an object that advances through its tokens; printing with
  the fewest parentheses; the main loop with its recovery.
- **Reader/writer semaphore and message queue** (`Semaphores`, `MessageQueues`). Step systems over
  single atomic operations, with stale local reads and spurious wakeups: who is kept out and who
  gets in, and what calls have done when they are over.
- **Caches** (`LruCaches`, `FactoryStates`, `CachedFactories`). A list and a map that must agree,
  which keys are kept, and the inclusion of a smaller cache in a larger one; a pool of objects with
  an out-table, a creation limit, random eviction and wrapping counters.
- **Zigzag conversion** (`ZigzagRows`, `ZigzagConversions`). Five conversions, two of them writing
  into the string they read, all equal to one function.

`Basics` and `Wrappers` hold what several of them need. `dafny verify dfyconfig.toml` checks
everything.

Three findings, where the code does not do quite what one might expect of it:

- `MultiUnlock` does not run to its end for every group it accepts. It does exactly if, in list
  order, members locked once come before members locked more often
  (`LockGroups.MultiUnlockExact`, `LockGroups.MultiUnlockUnderInterleaving`); equal counts are a
  special case. Otherwise an assertion fails, that the mutex to be unlinked is the head
  (`LevelMutex.cpp:674`); a build without assertions would go on and damage the list. A run in
  which this happens is `LockGroups.AssertionFails`: two mutexes are locked as a group, the second
  is locked again, and the group is unlocked.
- Eviction can fail although an idle object exists: the vector `EvictRandom` draws from keeps the
  key of an object that has gone out again (`FactoryStates.EvictionFailsBesideIdleObject`). At the
  limit it can fail exactly if there is such a key, and it fails whatever is drawn exactly if no
  object is idle (`FactoryStates.SomeOrEveryDrawFails`).
- `TrimEmptyChunk` can leave a cursor on a chunk that is gone, since it moves the last chunk into
  the place of the wholly free one and only looks after cursors on the latter
  (`SlotPools.TrimLosesCursor`). It keeps the class invariant exactly if no cursor is on the last
  chunk, or that is the one given back (`FixedAllocators.FixedAllocator.TrimEmptyChunk`).

## Model

| member | source | states |
|---|---|---|
| LockMachine.NoDeadlock | 3rdparty/loki-0.1.7/src/LevelMutex.cpp:316-392 | no reachable state of any number of threads has a set of threads each waiting for a mutex owned by one of the set |
| LockMachine.NoCircularWait | 3rdparty/loki-0.1.7/src/LevelMutex.cpp:653-716 | in every reachable state waiting threads never form a cycle |
| LockMachine.BlockedHoldsEarlier | 3rdparty/loki-0.1.7/include/loki/LevelMutex.h:805-823 | in every reachable state a blocked thread holds only mutexes that come before the one it waits for: higher level, or same level and lower address |
| LockMachine.WaitsClimb | 3rdparty/loki-0.1.7/src/LevelMutex.cpp:685-716 | if one thread waits for another that waits too, the second waits for a later mutex |
| LockMachine.RunInv | 3rdparty/loki-0.1.7/src/LevelMutex.cpp:316-521 | every run of Lock, TryLock, Unlock, MultiLock and MultiUnlock steps keeps lists ordered and owned: a mutex is in a list exactly when that thread owns it |
| LockMachine.StepInv | 3rdparty/loki-0.1.7/include/loki/LevelMutex.h:783-885 | one step of one thread, interleaved anywhere, keeps that invariant |
| LockMachine.UndoOneRestores | 3rdparty/loki-0.1.7/src/LevelMutex.cpp:227-247 | undoing the latest member of a group is always allowed and takes exactly that member off |
| LockMachine.GroupStarts | 3rdparty/loki-0.1.7/src/LevelMutex.cpp:316-378 | a group that passed the checks is sorted, free of duplicates and below everything its thread holds |
| LevelListProofs.MatchIffPermutation | 3rdparty/loki-0.1.7/src/LevelMutex.cpp:184-214 | the container matches exactly when it is a non-empty permutation of the leading list entries at the current level |
| LevelListProofs.DistinctSubsetPermutes | 3rdparty/loki-0.1.7/src/LevelMutex.cpp:184-214 | the pigeonhole step of it: distinct entries drawn from equally many are a permutation |
| LevelListProofs.MatchAccepts | 3rdparty/loki-0.1.7/src/LevelMutex.cpp:192-208 | what acceptance by the matching loop means for every entry |
| LevelListProofs.LockGroupPlan | 3rdparty/loki-0.1.7/src/LevelMutex.cpp:316-378 | a group MultiLock goes on to lock has no null, no duplicate, one level, and that below the current one |
| LevelListProofs.ScanAccepts | 3rdparty/loki-0.1.7/src/LevelMutex.cpp:361-375 | what acceptance by the loop over the later members means |
| LevelListProofs.SortedGroup | 3rdparty/loki-0.1.7/src/LevelMutex.cpp:376-378 | sorting a duplicate-free group of one level gives the same members in locking order |
| LevelListProofs.BelowCurrentLevel | 3rdparty/loki-0.1.7/src/LevelMutex.cpp:685-716 | with the current level above a mutex, everything held comes before it |
| LevelListProofs.PushOrdered | 3rdparty/loki-0.1.7/src/LevelMutex.cpp:653-665 | putting a mutex below the current level on the list keeps the list ordered |
| LevelListProofs.PreLockKeepsMutexes | 3rdparty/loki-0.1.7/src/LevelMutex.cpp:685-716 | the check before locking changes counts only, by one on the re-entered mutex, and passes a mutex on only if it is below the current level |
| LevelListProofs.PreUnlockKeepsMutexes | 3rdparty/loki-0.1.7/src/LevelMutex.cpp:720-742 | the check before unlocking changes no order and no mutex; a success takes one lock off the one mutex, any other verdict nothing |
| LevelListProofs.ReleaseKeepsOrder | 3rdparty/loki-0.1.7/include/loki/LevelMutex.h:954-970 | releasing one lock keeps the order, and the mutex leaves exactly when its count was 1 |
| ListVerdicts.LockMeans | 3rdparty/loki-0.1.7/src/LevelMutex.cpp:685-716 | exactly the mutexes below everything held are let through, for an attempt unless seen locked; exactly those held at the lowest level are counted up, by one; each refusal has its one error |
| ListVerdicts.UnlockMeans | 3rdparty/loki-0.1.7/src/LevelMutex.cpp:720-742 | exactly the mutexes held at the lowest level are unlocked: one lock is taken off if there are more, or the mutex is let through; all other counts stay, and each refusal has its one error |
| ListVerdicts.ReentryRoundTrip | 3rdparty/loki-0.1.7/src/LevelMutex.cpp:700-738 | locking again and unlocking gives back the list |
| ListVerdicts.LockRoundTrip | 3rdparty/loki-0.1.7/include/loki/LevelMutex.h:805-885 | locking a mutex that was let through and unlocking it gives back the list |
| ListVerdicts.MatchMeans | 3rdparty/loki-0.1.7/src/LevelMutex.cpp:184-214 | an empty container, and no other, is refused as empty; success means a permutation of the leading group |
| ListVerdicts.MatchErrors | 3rdparty/loki-0.1.7/src/LevelMutex.cpp:184-214 | each error of the matching loop is given only for what it says |
| ListVerdicts.PlanMeans | 3rdparty/loki-0.1.7/src/LevelMutex.cpp:316-378 | MultiLock locks again exactly a permutation of the group held at the current level, and each of its errors is given only for what it says |
| LockGroups.MultiUnlockExact | 3rdparty/loki-0.1.7/src/LevelMutex.cpp:479-521 | MultiUnlock on a container it accepted runs to its end without failing an assertion if and only if members locked once come before members locked more often; it then takes one lock off each |
| LockGroups.ReleaseLeading | 3rdparty/loki-0.1.7/src/LevelMutex.cpp:499-518 | the same for the first n entries of any list |
| LockGroups.UnlockOrderIsListOrder | 3rdparty/loki-0.1.7/src/LevelMutex.cpp:494-502 | going through the sorted group from its end is going through the list from its head |
| LockGroups.LockThenUnlock | 3rdparty/loki-0.1.7/src/LevelMutex.cpp:316-521 | MultiUnlock with any permutation of a group just locked gives back the list there was before |
| LockGroups.RelockThenUnlock | 3rdparty/loki-0.1.7/src/LevelMutex.cpp:341-358 | the nested case: locking a held group again and unlocking it gives back list and counts, whatever the counts were |
| LockGroups.GroupLocked | 3rdparty/loki-0.1.7/src/LevelMutex.cpp:380-392 | after a group was locked the list is ordered and any permutation of the group matches it |
| LockGroups.MultiLockAllOrNothing | 3rdparty/loki-0.1.7/src/LevelMutex.cpp:227-262 | when a MultiLock call is over, however the steps of all threads interleave, its thread holds what it held before or the whole group on top of it |
| LockGroups.GroupRun | 3rdparty/loki-0.1.7/src/LevelMutex.cpp:380-392 | in between it holds the old list with the part of the group locked so far on top |
| LockGroups.MultiUnlockUnderInterleaving | 3rdparty/loki-0.1.7/src/LevelMutex.cpp:479-521 | however the steps of all threads interleave, a MultiUnlock call that is over has taken one lock off each member and members locked once came first; wherever the call still is, it can end exactly if they came first |
| LockGroups.UnlockAlone | 3rdparty/loki-0.1.7/src/LevelMutex.cpp:499-518 | left alone, the call ends exactly if no UnlockThis on the way fails its assertion, and with the list the list functions give |
| LockGroups.AssertionFails | 3rdparty/loki-0.1.7/src/LevelMutex.cpp:669-681 | a run in which every call is accepted and an UnlockThis fails its assertion: two mutexes locked as a group, the second locked again, the group unlocked |
| LockGroups.ReentryList | 3rdparty/loki-0.1.7/src/LevelMutex.cpp:479-521 | the list at that point: the container matches, members locked once do not come first, and unlocking does not reach its end |
| LockRuns.LocksFree | 3rdparty/loki-0.1.7/include/loki/LevelMutex.h:805-823 | a thread that may take a free mutex has it after the call and one grant, on top of its list and owned by it |
| LockRuns.UnlocksBack | 3rdparty/loki-0.1.7/include/loki/LevelMutex.h:861-885 | unlocking it leads back to exactly the state of before, lists and owners of all threads |
| LockRuns.TriesFree | 3rdparty/loki-0.1.7/include/loki/LevelMutex.h:783-803 | an attempt on a free mutex not seen locked succeeds at once |
| LockRuns.Reenters | 3rdparty/loki-0.1.7/src/LevelMutex.cpp:700-710 | re-entry is one step, one lock more on a mutex held |
| LockRuns.LeavesAgain | 3rdparty/loki-0.1.7/src/LevelMutex.cpp:735-739 | and the unlock after it leads back to the state of before |
| LockRuns.GrantedWhenFree | 3rdparty/loki-0.1.7/src/LevelMutex.cpp:653-665 | a waiting thread can be granted its mutex exactly while nobody owns it, and can give up at any time |
| LockRuns.LocksFreeGroup | 3rdparty/loki-0.1.7/src/LevelMutex.cpp:316-392 | a free group that passes the checks is locked by the call and one grant for each member, all of it owned |
| LockRuns.UnlocksGroupBack | 3rdparty/loki-0.1.7/src/LevelMutex.cpp:479-521 | unlocking it with any permutation of the container, one release for each member, leads back to the state of before |
| LockRuns.Relocks | 3rdparty/loki-0.1.7/src/LevelMutex.cpp:341-358 | locking a held group again is one step, one lock more on each of its members and on no other |
| LockRuns.UndoesAll | 3rdparty/loki-0.1.7/src/LevelMutex.cpp:227-247 | a group call that gives up is undone member by member to the list and the owners of before |
| MutexObjects.IsValidList | 3rdparty/loki-0.1.7/src/LevelMutex.cpp:275-312 | ends on every finite graph of mutexes, cyclic ones included, and is true exactly when following the links spells a list whose levels never fall |
| MutexObjects.CycleNeverEnds | 3rdparty/loki-0.1.7/src/LevelMutex.cpp:275-312 | a walk that comes back to a mutex never ends |
| MutexObjects.SearchBound | 3rdparty/loki-0.1.7/src/LevelMutex.cpp:275-312 | every walk ends, or meets itself in a bounded number of steps of the two-speed search |
| MutexLists.IsUniqueMutex | 3rdparty/loki-0.1.7/src/LevelMutex.cpp:59-73 | true exactly when no later entry is the same pointer |
| MutexLists.DescendsOrdered | 3rdparty/loki-0.1.7/src/LevelMutex.cpp:275-312 | a list of mutex objects each taken after those behind it is an ordered list |
| MutexLists.ThreadList.GetCurrentThreadsLevel | 3rdparty/loki-0.1.7/src/LevelMutex.cpp:129-133 | the level of the head, or the unlocked level |
| MutexLists.ThreadList.CountMutexesAtCurrentLevel | 3rdparty/loki-0.1.7/src/LevelMutex.cpp:165-180 | the length of the leading part of the list at the current level |
| MutexLists.ThreadList.IsLockedByCurrentThread | 3rdparty/loki-0.1.7/src/LevelMutex.cpp:575-590 | whether the mutex is on the list |
| MutexLists.ThreadList.IsRecentLock | 3rdparty/loki-0.1.7/src/LevelMutex.cpp:616-633 | whether the mutex is among the given number of latest entries |
| MutexLists.ThreadList.DoMutexesMatchContainer | 3rdparty/loki-0.1.7/src/LevelMutex.cpp:184-214 | the verdict of the matching function on list and container, so that MatchIffPermutation applies |
| MutexLists.ThreadList.PreLockCheck | 3rdparty/loki-0.1.7/src/LevelMutex.cpp:685-716 | verdict and list of the checking function; the count of the mutex grows by one exactly on success |
| MutexLists.ThreadList.PreUnlockCheck | 3rdparty/loki-0.1.7/src/LevelMutex.cpp:720-742 | verdict and list of the checking function; the count of the mutex falls by one exactly on success |
| MutexLists.ThreadList.IncrementCount | 3rdparty/loki-0.1.7/src/LevelMutex.cpp:557-562 | one more lock on a held mutex, nothing else changed |
| MutexLists.ThreadList.DecrementCount | 3rdparty/loki-0.1.7/src/LevelMutex.cpp:566-571 | one lock fewer on it |
| MutexLists.ThreadList.PostLock | 3rdparty/loki-0.1.7/src/LevelMutex.cpp:653-665 | the mutex becomes the head, locked once, and the list stays valid |
| MutexLists.ThreadList.PreUnlock | 3rdparty/loki-0.1.7/src/LevelMutex.cpp:669-681 | the head leaves the list, with no count and no link |
| MutexLists.ThreadList.LockThis | 3rdparty/loki-0.1.7/include/loki/LevelMutex.h:907-919 | granted and on top of the list exactly if nobody has the underlying mutex and it does not fail; otherwise nothing changed |
| MutexLists.ThreadList.Lock | 3rdparty/loki-0.1.7/include/loki/LevelMutex.h:805-823 | re-entry, refusal by the check, or, exactly if the underlying mutex is free and does not fail, a grant on top of the list; success is one lock more |
| MutexLists.ThreadList.TryLock | 3rdparty/loki-0.1.7/include/loki/LevelMutex.h:783-803 | the same for the attempt that does not wait |
| MutexLists.ThreadList.Unlock | 3rdparty/loki-0.1.7/include/loki/LevelMutex.h:861-885 | success is one lock fewer, the last one giving the head back with its underlying mutex; if that one refuses, everything is as before with the mutex linked again |
| MutexLists.ThreadList.GiveBack | 3rdparty/loki-0.1.7/include/loki/LevelMutex.h:872-884 | the half of it after the check: unlinked and given back, or linked again |
| MutexLists.ThreadList.UnlockThis | 3rdparty/loki-0.1.7/include/loki/LevelMutex.h:954-970 | one lock fewer, or off the list even if the underlying mutex refuses; the answer of that one is the result |
| MutexGroups.Undo | 3rdparty/loki-0.1.7/src/LevelMutex.cpp:227-247 | the undoer puts back list, counts and underlying mutexes as they were before the group, but for those that refuse |
| MutexGroups.LockAll | 3rdparty/loki-0.1.7/src/LevelMutex.cpp:380-392 | all members are locked in order exactly if all underlying mutexes are free and do not fail; otherwise the list and every member are as before, but for underlying mutexes that refuse to be given back |
| MutexGroups.ScanGroup | 3rdparty/loki-0.1.7/src/LevelMutex.cpp:361-375 | the verdict on the second and later members |
| MutexGroups.CheckGroup | 3rdparty/loki-0.1.7/src/LevelMutex.cpp:316-378 | what MultiLock decides before it touches a mutex: refuse, lock again, or lock the group |
| MutexGroups.RelockAll | 3rdparty/loki-0.1.7/src/LevelMutex.cpp:352-357 | one more lock on every member, nothing else |
| MutexGroups.MultiLock | 3rdparty/loki-0.1.7/src/LevelMutex.cpp:316-392 | refused with nothing changed; or one more lock on each member; or, exactly if all are granted, the group on top of the list in reverse address order; or put back |
| MutexGroups.UnlockAll | 3rdparty/loki-0.1.7/src/LevelMutex.cpp:499-518 | the loop takes one lock off each member, which is then still on the list or given back; it fails exactly if a member locked once refuses, and goes on to the others |
| MutexGroups.MultiUnlock | 3rdparty/loki-0.1.7/src/LevelMutex.cpp:479-521 | within its asserted contract: one lock fewer on each matched entry, members gone from the list given back, failure exactly if one of these refuses; or an error and nothing changed |
| MutexGroups.ReleaseMember | 3rdparty/loki-0.1.7/src/LevelMutex.cpp:502-509 | one round of the loop: the member stays on the list or is given back, others are where they were |
| MutexGroups.GroupReady | 3rdparty/loki-0.1.7/src/LevelMutex.cpp:316-378 | a group that passed the checks, sorted, can be locked member by member |
| MultiLockers.Scope | 3rdparty/loki-0.1.7/src/LevelMutex.cpp:1073-1120 | a MultiMutexLocker locks exactly a group held already or one that passes the checks and is granted; whatever it locks its destructor gives back, list, counts, links and owners, but for underlying mutexes that refuse |
| MultiLockers.TakenThenReleased | 3rdparty/loki-0.1.7/src/LevelMutex.cpp:316-521 | after MultiLock, MultiUnlock of any permutation of the group is accepted, fails no assertion and leads back to the list of before |
| MultiLockers.LockScope | 3rdparty/loki-0.1.7/src/LevelMutex.cpp:316-392 | after a successful MultiLock the container still points at the same mutexes, all of them on the list |
| MultiLockers.UnlockScope | 3rdparty/loki-0.1.7/src/LevelMutex.cpp:479-521 | the MultiUnlock that goes with it gives back the list as objects, not only as levels and counts |
| OwnerRings.DestroyedExactlyOnce | 3rdparty/loki-0.1.7/include/loki/SmartPtr.h:1260-1266 | over any run of creating, copying, swapping and destroying, an object has one ring of owners and was never destroyed, or has none and was destroyed once |
| OwnerRings.FreedByLastOwner | 3rdparty/loki-0.1.7/include/loki/SmartPtr.h:1260-1266 | an operation destroys an object exactly if it was owned before and is not after, and then once |
| OwnerRings.RunWF | 3rdparty/loki-0.1.7/src/SmartPtr.cpp:40-156 | every run keeps each owner in one place of one ring |
| OwnerRings.ApplyWF | 3rdparty/loki-0.1.7/src/SmartPtr.cpp:40-156 | one step does |
| OwnerRings.RehangByCopy | 3rdparty/loki-0.1.7/include/loki/SmartPtr.h:1213-1218 | copy, swap and drop leave the assigned pointer behind the other one and no trace of the copy, in one ring, across rings and onto itself |
| OwnerRings.JoinWF | 3rdparty/loki-0.1.7/src/SmartPtr.cpp:40-52 | copying keeps the rings well formed |
| OwnerRings.ExchangeWF | 3rdparty/loki-0.1.7/src/SmartPtr.cpp:103-156 | swapping does |
| OwnerRings.OneOfManyLeaves | 3rdparty/loki-0.1.7/src/SmartPtr.cpp:56-99 | an owner leaving others behind does |
| OwnerRings.LastLeaves | 3rdparty/loki-0.1.7/src/SmartPtr.cpp:56-99 | the last owner leaving does, its object then destroyed |
| RefLinks.SwapLinks | 3rdparty/loki-0.1.7/src/SmartPtr.cpp:103-156 | in every aliasing case the links become those of before with the two nodes exchanged |
| RefLinks.ExchangedInverse | 3rdparty/loki-0.1.7/src/SmartPtr.cpp:103-156 | exchanging two nodes keeps the backward links the inverse of the forward ones |
| RefLinks.Release | 3rdparty/loki-0.1.7/src/SmartPtr.cpp:56-99 | true for the last owner of its ring only; otherwise the neighbours are linked past it, nobody else touched |
| RefLinks.Owner.Copy | 3rdparty/loki-0.1.7/src/SmartPtr.cpp:40-52 | the new node stands between the copied one and its successor |
| RefLinks.OnlyNeighbours | 3rdparty/loki-0.1.7/src/SmartPtr.cpp:103-156 | only its neighbours point at a node |
| SmartPointers.Create | 3rdparty/loki-0.1.7/include/loki/SmartPtr.h:1162-1170 | a new pointer is a ring of its own |
| SmartPointers.Copy | 3rdparty/loki-0.1.7/include/loki/SmartPtr.h:1173-1176 | the copy has the same pointee and joins the ring behind its source |
| SmartPointers.Swap | 3rdparty/loki-0.1.7/include/loki/SmartPtr.h:1252-1258 | links and pointees are exchanged, every ring again the owners of one object |
| SmartPointers.Assign | 3rdparty/loki-0.1.7/include/loki/SmartPtr.h:1213-1218 | the left pointer leaves its ring, its object deleted exactly if it was alone there, and stands behind the right one with the same pointee |
| SmartPointers.Destroy | 3rdparty/loki-0.1.7/include/loki/SmartPtr.h:1260-1266 | the owner leaves; the object is deleted exactly if it was the last |
| SmartPointers.GoodInverse | 3rdparty/loki-0.1.7/src/SmartPtr.cpp:40-156 | in such rings forward and backward links undo each other |
| SmartPointers.CountNextCycle | 3rdparty/loki-0.1.7/src/SmartPtr.cpp:195-213 | the number of owners in the ring |
| SmartPointers.CountPrevCycle | 3rdparty/loki-0.1.7/src/SmartPtr.cpp:173-191 | the same number, the other way round |
| Chunks.FreeListUnique | 3rdparty/loki-0.1.7/src/SmallObj.cpp:63-70 | the bytes of a chunk determine its free list |
| Chunks.WalkedIsForced | 3rdparty/loki-0.1.7/src/SmallObj.cpp:456-489 | a repeated or oversized index on the way means that no free list of the claimed length exists |
| Chunks.WriteKeepsFollows | 3rdparty/loki-0.1.7/src/SmallObj.cpp:358-369 | writing any byte of a block outside the list leaves the list |
| Chunks.Pigeonhole | 3rdparty/loki-0.1.7/src/SmallObj.cpp:373-397 | a block outside the list leaves room for it |
| Chunks.Chunk.constructor | 3rdparty/loki-0.1.7/src/SmallObj.cpp:302-323 | a new chunk has all blocks free, in address order |
| Chunks.Chunk.Reset | 3rdparty/loki-0.1.7/src/SmallObj.cpp:327-342 | writes a free list of all blocks |
| Chunks.Chunk.Allocate | 3rdparty/loki-0.1.7/src/SmallObj.cpp:358-369 | hands out the first free block, or none when full; no byte changes |
| Chunks.Chunk.Deallocate | 3rdparty/loki-0.1.7/src/SmallObj.cpp:373-397 | the block becomes the first free one and only its first byte is written |
| Chunks.Chunk.IsCorrupt | 3rdparty/loki-0.1.7/src/SmallObj.cpp:401-498 | with index checks, true exactly when the bytes hide no free list of the claimed length |
| Chunks.Chunk.IsBlockAvailable | 3rdparty/loki-0.1.7/src/SmallObj.cpp:502-542 | true exactly when the block is in the free list |
| Chunks.Chunk.Write | 3rdparty/loki-0.1.7/src/SmallObj.cpp:63-70 | a client writing into its live block leaves the free list valid |
| SlotPools.LiveDisjoint | 3rdparty/loki-0.1.7/src/SmallObj.cpp:831-919 | live blocks do not overlap |
| SlotPools.TakeLive | 3rdparty/loki-0.1.7/src/SmallObj.cpp:831-884 | allocating adds one live block that was not live |
| SlotPools.GiveLive | 3rdparty/loki-0.1.7/src/SmallObj.cpp:966-1008 | deallocating removes exactly that block |
| SlotPools.DropLive | 3rdparty/loki-0.1.7/src/SmallObj.cpp:983-1003 | giving a wholly free chunk back to the system changes no live block |
| SlotPools.AddLive | 3rdparty/loki-0.1.7/src/SmallObj.cpp:799-827 | nor does a new chunk |
| SlotPools.DropOne | 3rdparty/loki-0.1.7/src/SmallObj.cpp:983-1003 | of two wholly free chunks one goes, and the empty cursor then names the other where it stands |
| SlotPools.DetachedBooked | 3rdparty/loki-0.1.7/src/SmallObj.cpp:837-873 | after an allocation the cursors are in range and the empty cursor names the wholly free chunk, if there is one |
| SlotPools.GiveEmptyIs | 3rdparty/loki-0.1.7/src/SmallObj.cpp:966-981 | a chunk that gets a block back was not the one the empty cursor names |
| SlotPools.AvailableOrLive | 3rdparty/loki-0.1.7/src/SmallObj.cpp:799-1008 | available and live blocks make up all blocks |
| SlotPools.FewChunks | 3rdparty/loki-0.1.7/src/SmallObj.cpp:799-1008 | at most one chunk more than live blocks, if one at most is wholly free |
| SlotPools.SwappedOk | 3rdparty/loki-0.1.7/src/SmallObj.cpp:995-997 | swapping two chunks keeps them apart |
| FixedAllocators.BlocksPerChunk | 3rdparty/loki-0.1.7/src/SmallObj.cpp:570-582 | as many blocks as fit a page, but at least 8 and at most 255 |
| FixedAllocators.FixedAllocator.constructor | 3rdparty/loki-0.1.7/src/SmallObj.cpp:546-582 | an allocator with no chunks and no live blocks |
| FixedAllocators.FixedAllocator.HasBlock | 3rdparty/loki-0.1.7/src/SmallObj.cpp:722-732 | the first chunk that covers the address, or none |
| FixedAllocators.FixedAllocator.VicinityFind | 3rdparty/loki-0.1.7/src/SmallObj.cpp:923-962 | a chunk that covers the address if there is one, whatever the cursor |
| FixedAllocators.FixedAllocator.MakeNewChunk | 3rdparty/loki-0.1.7/src/SmallObj.cpp:799-827 | a new chunk at the end with cursors on last and first, or no change |
| FixedAllocators.FixedAllocator.PickChunk | 3rdparty/loki-0.1.7/src/SmallObj.cpp:831-871 | the chunk last allocated from if it has an available block, else the wholly free one, else the first that is not filled; a new one only if all are filled |
| FixedAllocators.FixedAllocator.Allocate | 3rdparty/loki-0.1.7/src/SmallObj.cpp:831-884 | a block that was not live becomes live, or all is full and the system has no memory; no existing memory is written, and the class invariant is kept |
| FixedAllocators.FixedAllocator.SwapChunks | 3rdparty/loki-0.1.7/src/SmallObj.cpp:995-997 | contents of two chunks change places |
| FixedAllocators.FixedAllocator.ReleaseSpare | 3rdparty/loki-0.1.7/src/SmallObj.cpp:986-1003 | the right one of two wholly free chunks goes; the allocation cursor moves exactly if its chunk is gone or filled |
| FixedAllocators.FixedAllocator.DoDeallocate | 3rdparty/loki-0.1.7/src/SmallObj.cpp:966-1008 | the block stops being live and the class invariant is kept, with one byte written |
| FixedAllocators.FixedAllocator.Deallocate | 3rdparty/loki-0.1.7/src/SmallObj.cpp:888-919 | found exactly for live blocks, which then are no longer live; apart from the first byte of the block no memory changes |
| FixedAllocators.FixedAllocator.ClientWrites | 3rdparty/loki-0.1.7/src/SmallObj.cpp:63-70 | a client writing into its live block changes that byte and no other, and neither live blocks nor hidden lists |
| FixedAllocators.FixedAllocator.Economy | 3rdparty/loki-0.1.7/src/SmallObj.cpp:158-168 | between calls available plus live is chunks times blocks, and chunks are at most live blocks plus one |
| FixedAllocators.FixedAllocator.LiveLayout | 3rdparty/loki-0.1.7/src/SmallObj.cpp:63-70 | an address is a live block exactly if it is a whole block of a chunk that the hidden list of the chunk does not have; live blocks do not overlap |
| FixedAllocators.FixedAllocator.BlockLive | 3rdparty/loki-0.1.7/src/SmallObj.cpp:63-70 | block i of chunk c is live exactly if following the hidden indexes of the chunk does not meet i |
| FixedAllocators.FixedAllocator.TrimEmptyChunk | 3rdparty/loki-0.1.7/src/SmallObj.cpp:735-777 | the wholly free chunk goes and no live block changes; the class invariant is kept exactly if no cursor is on the last chunk, or that is the one given back |
| SlotPools.TrimBooked | 3rdparty/loki-0.1.7/src/SmallObj.cpp:746-771 | the cursors stay in range exactly under that condition |
| SlotPools.TrimLosesCursor | 3rdparty/loki-0.1.7/src/SmallObj.cpp:746-771 | two chunks, the first wholly free and the second filled and last allocated from: the allocation cursor is left on a chunk that is gone |
| SlotPools.LiveExactly | 3rdparty/loki-0.1.7/src/SmallObj.cpp:63-70 | a block of a chunk is live exactly if it is not in its free list |
| SmallObjects.OffsetRoundsUp | 3rdparty/loki-0.1.7/src/SmallObj.cpp:1013-1017 | the number of alignment units rounds up |
| SmallObjects.SmallObjAllocator.constructor | 3rdparty/loki-0.1.7/src/SmallObj.cpp:1060-1074 | one allocator for each size class, all in order and none sharing anything with another |
| SmallObjects.SmallObjAllocator.RouteFits | 3rdparty/loki-0.1.7/src/SmallObj.cpp:1109-1121 | the allocator chosen exists, its blocks are large enough and waste less than the alignment |
| SmallObjects.SmallObjAllocator.Allocate | 3rdparty/loki-0.1.7/src/SmallObj.cpp:1109-1139 | a block that was live in no allocator becomes live in the one for its size; all allocators stay in order and apart, and no other live block changes |
| SmallObjects.SmallObjAllocator.Deallocate | 3rdparty/loki-0.1.7/src/SmallObj.cpp:1144-1164 | the same size leads back to the same allocator; exactly that block stops being live in the whole pool |
| SmallObjects.SmallObjAllocator.DeallocateAny | 3rdparty/loki-0.1.7/src/SmallObj.cpp:1168-1195 | without a size, the search over all allocators finds the one the block came from and exactly that block stops being live; an address of none is left alone |
| SmallObjects.PoolDisjoint | 3rdparty/loki-0.1.7/src/SmallObj.cpp:1109-1195 | live blocks of the whole pool do not overlap, of whatever sizes they are |
| SmallObjects.OthersMiss | 3rdparty/loki-0.1.7/src/SmallObj.cpp:1168-1195 | no chunk of another allocator covers a live block, so that the search cannot stop early |
| SmallObjects.AllKept | 3rdparty/loki-0.1.7/src/SmallObj.cpp:1109-1164 | a call on one allocator that adds chunks only in unused memory keeps every other one, and all of them apart |
| SmallObjects.SmallObjAllocator.FindAllocator | 3rdparty/loki-0.1.7/src/SmallObj.cpp:1176-1184 | the search ends at the allocator the block came from, or past the last one |
| ExpressionParsing.ParsesExactlyReadings | projects/high_perf/mem_in_deep/main.cpp:262-301 | parsing gives a tree and a rest exactly if the tree spells what is before the rest, is well formed under the precedences, and cannot be continued; which precedences these are is OperatorBinding |
| ExpressionParsing.OneReading | projects/high_perf/mem_in_deep/main.cpp:262-301 | there is at most one such tree |
| ExpressionParsing.FailsWithoutReading | projects/high_perf/mem_in_deep/main.cpp:262-301 | parsing fails exactly when there is none |
| ExpressionParsing.ExpressionSound | projects/high_perf/mem_in_deep/main.cpp:296-301 | a parsed tree spells exactly what was consumed and is well formed |
| ExpressionParsing.BinOpRHSSound | projects/high_perf/mem_in_deep/main.cpp:270-292 | the operator loop keeps that, stops below its precedence and yields a tree that binds at least that tightly |
| ExpressionParsing.RightSound | projects/high_perf/mem_in_deep/main.cpp:270-292 | right operands bind more tightly than their operator and what follows does not |
| ExpressionParsing.PrimarySound | projects/high_perf/mem_in_deep/main.cpp:193-254 | the same for primaries |
| ExpressionParsing.ArgumentsSound | projects/high_perf/mem_in_deep/main.cpp:216-231 | and for argument lists |
| ExpressionParsing.ExpressionComplete | projects/high_perf/mem_in_deep/main.cpp:296-301 | every well-formed tree is read back from its tokens |
| ExpressionParsing.ClimbThrough | projects/high_perf/mem_in_deep/main.cpp:270-292 | the loop over the tokens of a tree does what it does with that tree already on the left |
| ExpressionParsing.RightOperand | projects/high_perf/mem_in_deep/main.cpp:270-292 | the nested call happens exactly when the right operand has more than its first primary |
| ExpressionParsing.PrimaryComplete | projects/high_perf/mem_in_deep/main.cpp:193-254 | primaries are read back |
| ExpressionParsing.ArgumentsComplete | projects/high_perf/mem_in_deep/main.cpp:216-231 | argument lists are read back |
| OperatorBinding.ParsesTwo | projects/high_perf/mem_in_deep/main.cpp:407-410 | of two operators the second takes the operand between them exactly if it binds more tightly, * before + and -, these before <; equals group to the left |
| OperatorBinding.ParsesOne | projects/high_perf/mem_in_deep/main.cpp:262-301 | one operator between two operands |
| OperatorBinding.ParsesUpTo | projects/high_perf/mem_in_deep/main.cpp:262-301 | any token but the four operators and an opening parenthesis ends an expression |
| OperatorBinding.ParsesExactlyGrouped | projects/high_perf/mem_in_deep/main.cpp:262-301 | parsing succeeds exactly with the tree, of whatever size, whose operators group so and that spells the input up to a token that cannot continue it |
| FailedParses.FailsAtFirstBadToken | projects/high_perf/mem_in_deep/main.cpp:193-301 | a failed parse has read a beginning of some expression and stops at the first token with which it is one no more |
| FailedParses.PrototypeFailsAtFirstBadToken | projects/high_perf/mem_in_deep/main.cpp:307-323 | so does a failed prototype |
| FailedParses.SkipsUpToBadToken | projects/high_perf/mem_in_deep/main.cpp:354-402 | a turn of the main loop that fails skips what it had read and that one token, no more and no fewer |
| Printing.PrintThenParse | projects/high_perf/mem_in_deep/main.cpp:183-301 | printing with the parentheses the precedences require and parsing gives back the expression and stops at the end of the print |
| Printing.ParsePrintParse | projects/high_perf/mem_in_deep/main.cpp:183-301 | whatever was parsed can be printed and parsed again unchanged |
| Printing.FewestTokens | projects/high_perf/mem_in_deep/main.cpp:262-301 | no well-formed way of writing an expression has fewer tokens |
| Printing.BracketedFits | projects/high_perf/mem_in_deep/main.cpp:262-301 | the print is well formed and stands for the expression |
| TopLevelParsing.ItemsSpell | projects/high_perf/mem_in_deep/main.cpp:383-402 | the items of the main loop, skipped tokens included, are the input, in order |
| TopLevelParsing.ItemSound | projects/high_perf/mem_in_deep/main.cpp:354-402 | each turn takes at least one token and reads a well-formed item or skips |
| TopLevelParsing.ProgramRoundTrip | projects/high_perf/mem_in_deep/main.cpp:383-402 | a program of well-formed definitions, externals and expressions with semicolons between is read as just that, nothing skipped |
| TopLevelParsing.PrototypeSound | projects/high_perf/mem_in_deep/main.cpp:307-323 | a prototype spells what was consumed |
| TopLevelParsing.PrototypeComplete | projects/high_perf/mem_in_deep/main.cpp:307-323 | and is read back |
| TopLevelParsing.SkipTakes | projects/high_perf/mem_in_deep/main.cpp:354-379 | recovery drops what the failed parse consumed and one token |
| KaleidoscopeParser.Parser.GetNextToken | projects/high_perf/mem_in_deep/main.cpp:165-166 | the next token, the end repeating |
| KaleidoscopeParser.Parser.ParseParenExpr | projects/high_perf/mem_in_deep/main.cpp:193-201 | the outcome of the function, parentheses gone from the tree |
| KaleidoscopeParser.Parser.ParseIdentifierExpr | projects/high_perf/mem_in_deep/main.cpp:207-235 | a variable or a call, as the function says |
| KaleidoscopeParser.Parser.ParseArguments | projects/high_perf/mem_in_deep/main.cpp:216-231 | the argument loop collects the arguments the function gives |
| KaleidoscopeParser.Parser.ParsePrimary | projects/high_perf/mem_in_deep/main.cpp:242-255 | the outcome of the function |
| KaleidoscopeParser.Parser.ParseBinOpRHS | projects/high_perf/mem_in_deep/main.cpp:270-292 | the loop that reassigns its left operand computes the recursive function |
| KaleidoscopeParser.Parser.ParseExpression | projects/high_perf/mem_in_deep/main.cpp:296-301 | the outcome of the function |
| KaleidoscopeParser.Parser.ParsePrototype | projects/high_perf/mem_in_deep/main.cpp:307-323 | the outcome of the function |
| KaleidoscopeParser.Parser.ParseDefinition | projects/high_perf/mem_in_deep/main.cpp:326-333 | prototype and body, or the tokens given up on |
| KaleidoscopeParser.Parser.ParseTopLevelExpr | projects/high_perf/mem_in_deep/main.cpp:336-343 | an expression under the anonymous name |
| KaleidoscopeParser.Parser.ParseExtern | projects/high_perf/mem_in_deep/main.cpp:346-349 | an external prototype |
| KaleidoscopeParser.Parser.HandleDefinition | projects/high_perf/mem_in_deep/main.cpp:354-361 | reports success or skips a token |
| KaleidoscopeParser.Parser.HandleExtern | projects/high_perf/mem_in_deep/main.cpp:363-370 | the same |
| KaleidoscopeParser.Parser.HandleTopLevelExpression | projects/high_perf/mem_in_deep/main.cpp:372-380 | the same |
| KaleidoscopeParser.Parser.MainLoop | projects/high_perf/mem_in_deep/main.cpp:383-402 | ends on every input at its end, with the reports of the items read |
| Semaphores.Exclusion | projects/high_perf/rw_semaphore.h:31-89 | for fewer than 2^31 threads, in every interleaving with stale local reads: no check fails, the word is flag plus readers, the count never reaches the flag, one owner at most, and a writer past its wait excludes everybody |
| Semaphores.StepKeepsInv | projects/high_perf/rw_semaphore.h:31-89 | every load, compare-and-swap or store keeps that |
| Semaphores.ChecksHold | projects/high_perf/rw_semaphore.h:48-75 | neither DCHECK can fail |
| Semaphores.FlagStopsReaders | projects/high_perf/rw_semaphore.h:31-55 | with the flag set the number of readers changes only by releases, one each, and the flag stays until a writer unlocks |
| Semaphores.WaitIsBounded | projects/high_perf/rw_semaphore.h:84-89 | from the moment the flag is set, readers still in and releases gone through add up to the readers there were |
| Semaphores.WriterGetsIn | projects/high_perf/rw_semaphore.h:84-89 | the waiting writer passes with its next look exactly when no reader is left |
| Semaphores.RetryOnlyAfterChange | projects/high_perf/rw_semaphore.h:44-56 | a release takes one off the word unless the word has moved since the thread looked |
| Semaphores.ReaderTurn | projects/high_perf/rw_semaphore.h:31-42 | a turn of a reader on its way in succeeds exactly if no writer has the flag and the number of readers is the one it last saw |
| Semaphores.WriterTurn | projects/high_perf/rw_semaphore.h:58-68 | the same for a writer, whose success sets the flag on top of whatever readers there are |
| Semaphores.ReaderGetsIn | projects/high_perf/rw_semaphore.h:31-42 | while no writer has the flag a reader gets in at once, beside any number of readers |
| Semaphores.WriterGetsFlag | projects/high_perf/rw_semaphore.h:58-68 | and a writer has the flag at once, with those readers to wait for |
| Semaphores.ReaderGetsOut | projects/high_perf/rw_semaphore.h:44-56 | a reader alone is out after two steps, one reader fewer |
| Semaphores.WriterGetsOut | projects/high_perf/rw_semaphore.h:73-78 | a writer that unlocks leaves the word 0 |
| MessageQueues.FirstInFirstOut | projects/high_perf/safe_queue_cc11.h:32-46 | in every interleaving what was taken out is a prefix of what was put in, and the rest is queued |
| MessageQueues.NoLostWakeup | projects/high_perf/safe_queue_cc11.h:32-46 | while a consumer sleeps the queue is no longer than the threads on their way, with the mutex free the woken consumers yet to run |
| MessageQueues.SleepersAreServed | projects/high_perf/safe_queue_cc11.h:38-46 | with a sleeper, an element and the mutex free, a woken consumer can run and takes the element |
| MessageQueues.HolderGoesOn | projects/high_perf/safe_queue_cc11.h:32-46 | whoever holds the mutex can take a step |
| MessageQueues.StepKeepsWake | projects/high_perf/safe_queue_cc11.h:32-46 | every step, spurious wakeups included, keeps the bound |
| MessageQueues.StepKeepsLock | projects/high_perf/safe_queue_cc11.h:32-46 | and the mutex with the one thread inside |
| MessageQueues.StepKeepsOrder | projects/high_perf/safe_queue_cc11.h:32-46 | and the order of elements |
| MessageQueues.DequeueTakes | projects/high_perf/safe_queue_cc11.h:38-46 | a dequeue gets past its wait only by taking the first element, and nothing is taken in any other way |
| MessageQueues.EnqueuePuts | projects/high_perf/safe_queue_cc11.h:32-36 | an enqueue puts its element in at the end, and nothing goes in in any other way |
| MessageQueues.EmptyMeansSleep | projects/high_perf/safe_queue_cc11.h:40-42 | a consumer that finds the queue empty sleeps and lets go of the mutex |
| MessageQueues.ReturnedInOrder | projects/high_perf/safe_queue_cc11.h:32-46 | in every interleaving what dequeues return, in the order in which they end, is what was put in, in order and without gaps; the rest is in one hand or queued |
| MessageQueues.DequeueRuns | projects/high_perf/safe_queue_cc11.h:38-46 | with the mutex free and an element there, a dequeue is over in four steps of its own, having taken that element and nothing else changed |
| MessageQueues.EnqueueRuns | projects/high_perf/safe_queue_cc11.h:32-36 | an enqueue is over in five, its element in and a sleeper woken if there was one |
| MessageQueues.CallsGoOn | projects/high_perf/safe_queue_cc11.h:32-46 | a free mutex goes to any thread that wants it, calls can be begun, sleepers can wake |
| LruCaches.Inclusion | projects/high_perf/lru_benchmark.cc:36-61 | fed the same operations, the list of a smaller cache can be had from that of a larger one by striking out keys, and every hit of the smaller is one of the larger |
| LruCaches.InclusionFromEmpty | projects/high_perf/lru_benchmark.cc:36-61 | in particular from empty caches |
| LruCaches.AfterIncluded | projects/high_perf/lru_benchmark.cc:36-61 | one operation keeps inclusion |
| LruCaches.AfterOk | projects/high_perf/lru_benchmark.cc:36-61 | free of duplicates and within the capacity; a key hit or put is the latest, the others stay in their order, and the first goes exactly if a new key finds the list full |
| LruCaches.KeepsLatestUsed | projects/high_perf/lru_benchmark.cc:36-61 | after any run the cache has exactly the keys used latest, by a hit or a Put, as many as there is room for, in the order of their last use |
| LruCaches.EvictsOldest | projects/high_perf/lru_benchmark.cc:46-61 | the key a full cache gives up for a new one is the one whose last use lies furthest back |
| LruCaches.EraseKey | projects/high_perf/lru_benchmark.cc:40-42 | erasing the node the map names erases its key |
| LruCaches.Lru.constructor | projects/high_perf/lru_benchmark.cc:34-34 | an empty cache |
| LruCaches.Lru.Has | projects/high_perf/lru_benchmark.cc:36-44 | a hit exactly for keys in the list; the key hit becomes the latest |
| LruCaches.Lru.Put | projects/high_perf/lru_benchmark.cc:46-61 | added exactly if absent, the key used longest ago dropped at capacity; map and list keep agreeing |
| FactoryStates.Accounted | 3rdparty/loki-0.1.7/include/loki/CachedFactory.h:253-286 | over any run every living object is idle in one place or out, never both; the created count is of these, and within a limit never set higher |
| FactoryStates.FailsExactlyIf | 3rdparty/loki-0.1.7/include/loki/CachedFactory.h:722-728 | for each draw, when CreateObject fails and why: only the creator below the limit; at the limit exactly if nothing was ever released, or the object drawn is out |
| FactoryStates.SomeOrEveryDrawFails | 3rdparty/loki-0.1.7/include/loki/CachedFactory.h:501-523 | at the limit eviction can fail, by some draw, exactly if a key of the vector is of an object that is out, and fails by every draw exactly if no object is idle |
| FactoryStates.DrawnBy | 3rdparty/loki-0.1.7/include/loki/CachedFactory.h:515-520 | every index of the vector is drawn by some random number |
| FactoryStates.FiveCalls | 3rdparty/loki-0.1.7/include/loki/CachedFactory.h:865-877 | five calls reach a state in which object 1 was released and is out again while object 2 is idle |
| FactoryStates.EvictionFailsBesideIdleObject | 3rdparty/loki-0.1.7/include/loki/CachedFactory.h:501-523 | in that state eviction fails although an object is idle, since the drawn key is of the object that is out |
| FactoryStates.NothingToEvictMeans | 3rdparty/loki-0.1.7/include/loki/CachedFactory.h:515-519 | with no keys to draw from, no object is idle |
| FactoryStates.FetchSets | 3rdparty/loki-0.1.7/include/loki/CachedFactory.h:865-877 | a failing eviction changes nothing, no object that is out is destroyed, and an idle object comes from the vector of its key |
| FactoryStates.MakeRoomKeepsInv | 3rdparty/loki-0.1.7/include/loki/CachedFactory.h:722-728 | making room destroys one idle object, or changes nothing |
| FactoryStates.FetchKeepsInv | 3rdparty/loki-0.1.7/include/loki/CachedFactory.h:865-877 | CreateObject keeps the invariant |
| FactoryStates.ReleasedKeepsInv | 3rdparty/loki-0.1.7/include/loki/CachedFactory.h:1140-1149 | ReleaseObject does |
| FactoryStates.LastInFirstOut | 3rdparty/loki-0.1.7/include/loki/CachedFactory.h:865-877 | the object that came back last for a key goes out first, and all else is as before |
| FactoryStates.DestroyedKeepsInv | 3rdparty/loki-0.1.7/include/loki/CachedFactory.h:785-808 | remove does |
| FactoryStates.Draw | 3rdparty/loki-0.1.7/include/loki/CachedFactory.h:515-520 | the index drawn is in range for every random number |
| CachedFactories.Statistics.OnCreate | 3rdparty/loki-0.1.7/include/loki/CachedFactory.h:606-611 | counters keep their meaning, hit wrapping below zero for a moment |
| CachedFactories.Statistics.OnFetch | 3rdparty/loki-0.1.7/include/loki/CachedFactory.h:596-601 | counters keep their meaning |
| CachedFactories.Statistics.GetMissed | 3rdparty/loki-0.1.7/include/loki/CachedFactory.h:622-622 | every miss is a creation |
| CachedFactories.Statistics.GetDestroyed | 3rdparty/loki-0.1.7/include/loki/CachedFactory.h:625-625 | creations less living objects |
| CachedFactories.CachedFactory.SetMaxCreation | 3rdparty/loki-0.1.7/include/loki/CachedFactory.h:280-285 | the limit in force is the one given, nothing else changes |
| CachedFactories.CachedFactory.Remove | 3rdparty/loki-0.1.7/include/loki/CachedFactory.h:785-808 | an idle object is destroyed and forgotten; one that is out is refused and nothing changes |
| CachedFactories.CachedFactory.Evict | 3rdparty/loki-0.1.7/include/loki/CachedFactory.h:515-521 | one idle object is destroyed, or nothing changes |
| CachedFactories.CachedFactory.CreateObject | 3rdparty/loki-0.1.7/include/loki/CachedFactory.h:865-877 | result and new state are those of the fetching function; pool, out-table, counters and keys stay consistent |
| CachedFactories.CachedFactory.ReleaseObject | 3rdparty/loki-0.1.7/include/loki/CachedFactory.h:1140-1149 | an object that is out comes back to the vector of its key; any other is refused and nothing changes |
| ZigzagRows.ZigzagPermutes | edu/train/zigzag.hpp:18-34 | the conversion keeps every letter as often |
| ZigzagRows.LetterPlace | edu/train/zigzag.hpp:18-34 | letter i is found behind the letters of earlier rows and the earlier letters of its own |
| ZigzagRows.PlacesDiffer | edu/train/zigzag.hpp:18-34 | no two letters share a place |
| ZigzagRows.PhaseIsRemainder | edu/train/zigzag.hpp:62-62 | the phase along the wave is the remainder by twice the rows less two |
| ZigzagRows.RowsBeyond | edu/train/zigzag.hpp:21-21 | rows beyond the length of the string are empty |
| ZigzagConversions.ConvertRef | edu/train/zigzag.hpp:18-34 | the rows of the triangle wave concatenated |
| ZigzagConversions.ConvertBase | edu/train/zigzag.hpp:36-125 | the same |
| ZigzagConversions.ConvertForge | edu/train/zigzag.hpp:236-295 | the same |
| ZigzagConversions.ConvertBest | edu/train/zigzag.hpp:127-230 | the same, in place |
| ZigzagConversions.ConvertBest1 | edu/train/zigzag.hpp:383-479 | the same, in place |
| ZigzagConversions.ToFront | edu/train/zigzag.hpp:198-203 | the place written is never an unread one: what is left to read is as it was |
| ZigzagConversions.PutBack | edu/train/zigzag.hpp:220-225 | the buffered rows behind the first one make up the result |

## Left out

- LockMachine.NoDeadlock: the mutex is the only thing a thread waits for in the model; clocks of timed waits are not modelled, a timed wait may give up at any step.
- LockMachine.Step: `m_count` is an unbounded number, and reading another thread's count in `TryLock` and `Unlock` may show any value.
- MutexLists.ThreadList.Lock: waiting for a mutex another thread has is modelled in `LockMachine` only; here a mutex another thread has answers with an error, and a free one is granted unless it fails.
- MutexLists.ThreadList.Unlock: an underlying mutex refuses by an error value. Exceptions it throws are not modelled; in `Unlock` and `MultiUnlock` they are handled like a refusal, in the destructor of `MutexUndoer` the first one ends the undoing. In `LockMachine` underlying mutexes never refuse.
- MutexGroups.MultiLock: sorting the container is a call of the standard library, modelled by an insertion sort as a function.
- MutexGroups.MultiUnlock: the exception thrown for a container whose first entry is null is returned as an error.
- MultiLockers.Scope: a `MultiMutexLocker` that is unlocked and locked again by hand before its destructor runs is not modelled, and the group is not touched by others in between.
- Mutex error policies, `MutexLocker`, native mutexes and thread-local storage: errors are returned, and each thread has its list head.
- The tests for the unlocked level inside comparisons that a mutex level excludes: levels are required to be below it.
- SmartPointers.CountNextCycle: the count is unbounded; `RefLinkedBase::Merge`, whose last branch splices correctly only rings of two, and the traversals `HasPrevNode` and `HasNextNode` are not modelled.
- SmartPointers.Create: one raw pointer handed to two unrelated smart pointers, and objects that own smart pointers themselves, are outside the model.
- Chunks.Chunk.Deallocate: freeing a block twice or a foreign address is outside the precondition, as in the assertions of the code.
- FixedAllocators.FixedAllocator.MakeNewChunk: memory comes from the caller of the model; growing the chunk vector does not fail on its own.
- FixedAllocators.FixedAllocator.Deallocate: an address that lies inside a chunk without being a live block is excluded.
- `TrimChunkList`, `TrimExcessMemory` and the second attempt to allocate after it: giving up spare capacity moves all chunks and leaves every cursor on the old place, and cursors that `TrimEmptyChunk` has lost would be followed.
- SmallObjects.SmallObjAllocator.Allocate: requests above the largest small size go to the default allocator, which is not modelled; nor are the corruption checks of whole allocators, which ask `Chunk::IsCorrupt` of every chunk.
- KaleidoscopeParser.Parser.ParseNumberExpr: number text and its conversion belong to the lexer; a number token carries its value. Error messages are not modelled.
- TopLevelParsing.Items: code generation does not exist in the parser and is not modelled.
- Semaphores.Step: operations are sequentially consistent; yielding and its loop counter are left out. A lock may be handed from one thread to another, as the header allows.
- MessageQueues.Step: copying elements does not fail.
- LruCaches.Lru.Put: capacity 0, for which the code would read the front of an empty list, is excluded; a node's address is a number never used again.
- FactoryStates.Fetch: keys are plain identifiers; the vector made for a key that was never used is left implicit. Other creation and eviction policies are not modelled, and `created` does not wrap since it never exceeds the limit.
- FactoryStates.Draw: the product of size and random number does not overflow.
- ZigzagConversions.ConvertBase: numbers of rows so large that the stride overflows, and reserving of capacity, are left out; so are `convert_arena` and `convert_orig_string_expansion`.
- The bounded queues of `parallel_data_structures`, the template headers, benchmarks and tests: they would add easy members only.
