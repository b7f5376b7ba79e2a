# ParSweet in Dafny

A model of ParSweet's concurrent algorithms and proofs about all their runs: the three sorted list sets, four queue
locks, the cyclic barrier and the two bucketed maps. `dafny verify dfyconfig.toml` checks everything.

## How the code is modelled

A concurrent algorithm is a step system. Every thread has a program counter and its local variables; one step is one
access to shared memory (a pointer, a mark, a flag, a counter, an exchange, a compare-and-swap) or one acquisition or
release of a lock. A run is any list of events, so any interleaving of any number of threads. What callers can see
(calls and answers, or entering and leaving a critical section) is recorded beside the state.

Two specifications play the part of the simple form:

* `AtomicMap`: a map whose operations take effect in one indivisible step. A set or map is *linearizable* when this
  object has a run with the same calls and answers in the same order.
* `FifoLock`: a queue of threads in doorway order, of which only the first may be inside.

The sequential text of the list sets, of `LockHashMap` and of `ThreadLocal` is also written out as classes with loops
over heap nodes and arrays (`SequentialListSets`, `LockHashMap`, `ThreadLocal`); each method is proved against a
function of the old contents, and the lemmas about those functions serve the step systems too.

| files | what they hold |
|---|---|
| `Elements`, `AtomicMap`, `SequentialHistories` | elements, operations and their meaning; the specification of sets and maps, and its runs without overlapping calls |
| `ListHeap` | nodes of a list set, alive or taken out; the order on them; what link, mark and unlink keep |
| `ListSets` | LazySet, OptimisticSet and FineGrainedSet, C++ and Java, as one step system |
| `ListSetInvariant`, `ListSetSteps`, `ListSetTheorems`, `ListSetSafety` | the invariant, why every step keeps it, linearizability, reachability, marks, deadlock |
| `Undisturbed`, `ReWalk`, `ReWalkNull` | a call that runs alone; what the re-walk of OptimisticSet decides; when it follows a null pointer |
| `Progress`, `Termination` | a call left alone returns, also from an outdated pair; without new calls every schedule ends |
| `SortedChain`, `SequentialListSets` | the list sets as imperative code |
| `FifoLock`, `CountingClient`, `MCSLock`, `CLHLock`, `ALock`, `TwoCounterLock`, `ThreadLocal` | the locks, the client that counts under one, and the storage they use |
| `Barrier` | the cyclic barrier, C++ and Java |
| `HashChain`, `ChainTable`, `Buckets`, `LockHashMap`, `LockHashMapRuns` | LockHashMap as imperative code and under interleaving |
| `LockHashMapCalls`, `SetBasedMapCalls`, `SetBasedMapEnds` | the calls of both maps come to their end, alone and among others |
| `SetBasedMap`, `MapsCompared`, `MapsAgree` | SetBasedMap over any of the list sets, and its comparison with LockHashMap |
| `FiniteSets`, `Sums`, `Remainders`, `Queues` | counting, sums, remainders, queues of threads |

### The list sets

A list is sorted by hash, and different elements may have the same hash, so keys are sorted non-strictly. The order
used is (key, order of linking): `add` always links behind the whole group of equal keys, so every `next` pointer ever
stored, also in nodes long taken out, goes strictly forward in it and jumps over no node in the list that has its
target's key. Each node carries two pieces of bookkeeping that no step looks at: whether it is in the list, and when
it was taken out. The second is why the re-walk of OptimisticSet is sound: had `predecessor` been taken out, everything
the re-walk can meet from head would have been taken out later, or not at all, so it could not meet `predecessor`.

### Progress

Safety alone would allow code that never returns. For the list sets, both maps, the four locks and the barrier there is
a rank of a state that every step within a call lowers, except spinning, which changes nothing. So a schedule that
starts no further call and lets nobody spin is finite; and whenever some call is unfinished, one of them has such a
step, so at the end of the schedule everybody has returned (`CallsEnd`, and `AllReturn` for the barrier). For the list
sets the rank has two parts: how often the calls under way may still change the list, and, while it does not change,
how far each of them is from its end. A failed validation lowers the second part, because it happens only on a pair
that was outdated, and the search that follows finds one that is not.

### What the code does that its text does not say

* OptimisticSet compares `next->value` when keys are equal. If two different elements have the largest possible hash,
  which is also the key of the tail, one of them can be removed while a search stands between it and the tail, and the
  re-walk then follows the tail's null pointer. `ReWalkNull.NullSafeIff` proves that this is the only way.
* ALock keeps its slot in a ThreadLocal with `ThreadCount` cells, so what matters is not how many threads contend but
  whether their ids differ modulo `ThreadCount`; and `ThreadCount` has to divide the range of `tail`, otherwise even a
  single thread gets stuck once `tail` has wrapped around, after 2^64 calls of `lock`. `ALock.ServesIff` proves that
  these two are exactly the condition.
* MCSLock and CLHLock keep their nodes in a ThreadLocal, so two threads whose ids agree modulo the number of cells share
  a node. The order of entry is then lost in all three locks, and so is mutual exclusion, except in MCSLock while there
  are no more than two threads (`CLHLock.MutualExclusionIff`, `MCSLock.MutualExclusionIff`, `ALock.MutualExclusionIff`).
* TwoCounterLock excludes exactly as long as there are no more threads than counter values
  (`TwoCounterLock.MutualExclusionIff`).
* SetBasedMap's `put` keeps a binding that is there, LockHashMap's replaces it; `MapsAgree.SameAnswersIff` proves when
  that cannot be seen.
* Both maps take the hash modulo `NumBuckets - 1`, so the last bucket is never used and `NumBuckets` is at least 2.

### Hypotheses

* Memory is sequentially consistent, and nodes are not freed while anybody can reach them.
* Equality agrees with the hash. This is built in: an element is a hash, a tag that tells colliding elements apart, and
  a payload that comparison ignores.
* `std::lock` takes both mutexes at once or waits; taking the same mutex twice blocks. Mutexes, Java locks and condition
  variables are primitives, and a waiting thread may wake up for no reason.
* Java's keys run from `Integer.MIN_VALUE` to `Integer.MAX_VALUE`; only the order and the two ends matter, and the model
  writes 0 and `SIZE_MAX` for them.
* MCSLock and CLHLock allocate a thread's node at its first call; the model has it there from the start.
* The barrier has exactly `nThreads` participants.

## Model

| member | source | states |
|---|---|---|
| ListSetTheorems.Linearizable | CppParallelSuite/sets/LazySet.hpp:24-98 | every run of every kind of list set, in C++ and in Java, with any number of threads and colliding hashes, is linearizable, and its final contents are the linked unmarked elements |
| ListSetTheorems.EventRefines | CppParallelSuite/sets/FineGrainedSet.hpp:23-93 | every single step is one step of the specification object or none: the answer of a call is what an atomic set would answer at the step that settles it |
| ListSetSafety.ContentsAreReachable | CppParallelSuite/sets/LazySet.hpp:51-59 | the elements of the set are exactly those that a walk from head meets unmarked |
| ListSetSafety.AnswersAreRight | CppParallelSuite/sets/LazySet.hpp:55-98 | in every run, at the step that settles a call: `contains`, `getEqual` and `remove` answer true if and only if a walk from head meets an unmarked node with the element, `add` if and only if none does; `getEqual` finds the stored element |
| ListSetSafety.EffectsAreRight | CppParallelSuite/sets/LazySet.hpp:76-98 | in every run, which elements, payloads included, a walk from head meets unmarked changes at the step that settles an `add` or a `remove` only, and by the one element |
| ListSetSafety.LinkedIffReachable | CppParallelSuite/sets/LazySet.hpp:28-34 | following `next` from head leads to exactly the nodes that count as being in the list |
| ListSetSafety.PointersAscend | CppParallelSuite/sets/LazySet.hpp:76-98 | in every run, every stored pointer, of unlinked nodes too, goes strictly forward in (key, order of linking) and jumps over no linked node with its target's key |
| ListSetSafety.WalkMissesNothing | CppParallelSuite/sets/LazySet.hpp:28-34 | from its first step until it has its answer, a thread never has a linked node with its element at or before its `predecessor`, whatever the others did since |
| ListSetSafety.ValidatedAreNeighbours | CppParallelSuite/sets/OptimisticSet.hpp:39-56 | a thread at its callback holds two locked, unmarked neighbours that are reachable from head |
| ListSetSafety.LazyMarks | CppParallelSuite/sets/LazySet.hpp:89-98 | unmarked nodes are reachable; a marked one is reachable only while its remover holds it and its predecessor; never two neighbours marked |
| ListSetSafety.MarkedStays | CppParallelSuite/sets/LazySet.hpp:94-95 | once a node is marked or taken out, no continuation of the run changes its `next` or its mark, or makes it reachable again |
| ListSetSafety.HandOverHand | CppParallelSuite/sets/FineGrainedSet.hpp:26-41 | FineGrainedSet holds and awaits reachable nodes only, except the one it has just taken out, and from its first lock to its update its two nodes are neighbours, but for the moment in which it moves on |
| ListSetSafety.NoDeadlock | JavaParallelSuite/src/edu/lsu/cct/parallelsuite/sets/LazySet.java:24-50 | in every run, an unfinished call can step or waits, through a finite chain of lock holders, for one that can: no circle anywhere |
| ListSetSafety.LocksAscend | JavaParallelSuite/src/edu/lsu/cct/parallelsuite/sets/FineGrainedSet.java:24-51 | in every run, whatever a thread waits for is behind all it holds in (key, order of linking), even on an outdated pair |
| ListSetSteps.LinkStep | CppParallelSuite/sets/LazySet.hpp:82-84 | linking a new node keeps the invariant of the list and is the set's `add` |
| ListSetSteps.MarkStep | CppParallelSuite/sets/LazySet.hpp:94 | marking keeps the invariant and is LazySet's `remove` |
| ListSetSteps.UnlinkStep | CppParallelSuite/sets/LazySet.hpp:95 | unlinking keeps the invariant; it changes the set only where no mark did so before |
| ListSetSteps.MoveOk | JavaParallelSuite/src/edu/lsu/cct/parallelsuite/sets/OptimisticSet.java:24-105 | every step keeps the invariant, touches only nodes its thread holds locked, and has the effect of the operation or none |
| ListHeap.StepRight | CppParallelSuite/sets/LazySet.hpp:31-34 | a step of an unlocked traversal passes no node with the searched element |
| ListHeap.StopDecides | CppParallelSuite/sets/LazySet.hpp:64-71 | at neighbours, comparing `current` decides whether the element is in the set and which payload it has |
| ListHeap.OnlyPredecessor | CppParallelSuite/sets/OptimisticSet.hpp:47-52 | a linked node with the key of `predecessor` whose pointer jumps onto `current` is `predecessor` itself |
| ReWalk.Decides | CppParallelSuite/sets/OptimisticSet.hpp:44-56 | in every run, a re-walk left alone halts without touching the list, also on an outdated pair; it accepts if and only if `predecessor` is reachable and its `next` is `current`, and follows the null pointer if and only if `predecessor` has the largest key and no node of the list makes the loop stop |
| Undisturbed.FirstAttempt | JavaParallelSuite/src/edu/lsu/cct/parallelsuite/sets/OptimisticSet.java:24-59 | a call that starts with all locks free and runs alone finishes without a failed validation, with the operation's answer and effect |
| Progress.Completes | CppParallelSuite/sets/LazySet.hpp:24-49 | in every run, an unfinished call at any point, also with an outdated pair or after a failed validation, returns by its own steps alone when nobody else holds a lock: with the operation's answer and effect on the set as it is, or the answer already settled; no lock stays taken; OptimisticSet without two elements of the largest hash |
| Termination.CallsEnd | CppParallelSuite/sets/OptimisticSet.hpp:24-58 | in every run, under any interleaving: once no further call is started every schedule ends within a number of steps that the state bounds, and when no step is left every call has returned; failed validations cannot go on for ever |
| Termination.TotalBound | CppParallelSuite/sets/OptimisticSet.hpp:24-58 | the number of steps in `CallsEnd` is less than (2n + 1)(492n(m + 1) + 1) for n threads and a list of never more than m nodes, live or taken out |
| ReWalkNull.NullSafeIff | CppParallelSuite/sets/OptimisticSet.hpp:44-50 | with two or more threads, no run on given elements follows a null pointer if and only if at most one of them has the largest hash |
| ReWalkNull.TwoLargestCrash | CppParallelSuite/sets/SetNode.hpp:36-40 | two elements with the largest hash, the tail's key, suffice: a run that follows the null pointer |
| ReWalkNull.OthersNullSafe | JavaParallelSuite/src/edu/lsu/cct/parallelsuite/sets/FineGrainedSet.java:24-98 | LazySet and FineGrainedSet never follow a null pointer |
| SequentialListSets.ListSet.constructor | CppParallelSuite/sets/LazySet.hpp:51-53 | a new set is a valid list of head and tail with no elements |
| SequentialListSets.ListSet.Walk | CppParallelSuite/sets/LazySet.hpp:28-34 | the loop stops right behind everything whose hash is not larger, or at the element |
| SequentialListSets.ListSet.ReWalk | CppParallelSuite/sets/OptimisticSet.hpp:44-50 | the loop ends at `predecessor` and meets no null pointer |
| SequentialListSets.ListSet.Find | CppParallelSuite/sets/OptimisticSet.hpp:24-58 | without interference the retry loop goes round once, for all three kinds |
| SequentialListSets.ListSet.Contains | CppParallelSuite/sets/LazySet.hpp:55-59 | true if and only if a node between head and tail holds the element; the answer of the specification |
| SequentialListSets.ListSet.GetEqual | CppParallelSuite/sets/LazySet.hpp:61-74 | the element of the node that holds it, payload included, or nothing when there is none |
| SequentialListSets.ListSet.Add | CppParallelSuite/sets/LazySet.hpp:76-87 | contents and answer of the specification; true if and only if no node held the element, which is then added, payload included, behind all with equal hash; an equal element is kept |
| SequentialListSets.ListSet.Remove | CppParallelSuite/sets/LazySet.hpp:89-98 | contents and answer of the specification; true if and only if a node held the element; exactly that one goes and the others keep their order |
| SortedChain.InsertKeeps | CppParallelSuite/sets/LazySet.hpp:31-34 | inserting behind the group of equal hashes keeps the list sorted and free of repetition |
| SortedChain.InsertIsAdd | CppParallelSuite/sets/LazySet.hpp:76-87 | on the elements seen as a map, that insertion is `add` |
| CountingClient.CountsUp | CppParallelSuite/bench/test/TestLocks.cpp:24-50 | under a first-in-first-out lock the unsynchronised `++counter`, a read and a write, ends at threads times iterations |
| MCSLock.RefinesFifo | CppParallelSuite/locks/MCSLock.hpp:35-66 | whatever the schedule, also with half-linked queues, the lock behaves like the specification: threads enter in the order of the exchanges, one at a time, and leave in that order |
| MCSLock.RefinesFifoIff | CppParallelSuite/locks/MCSLock.hpp:25-66 | every run behaves so if and only if the ids of the threads differ modulo the number of thread-local cells |
| MCSLock.Overtakes | CppParallelSuite/locks/MCSLock.hpp:52-58 | two threads that share a node: the first leaves between the other's exchange and its linking, and gets in again before it |
| MCSLock.MutualExclusion | CppParallelSuite/locks/MCSLock.hpp:35-66 | at most one thread between the end of `lock` and the hand-over in `unlock`; no null pointer followed |
| MCSLock.MutualExclusionIff | CppParallelSuite/locks/MCSLock.hpp:25-66 | mutual exclusion in every run if and only if the ids differ modulo the number of thread-local cells or there are no more than two threads |
| MCSLock.QueueIsHalfLinked | CppParallelSuite/locks/MCSLock.hpp:40-49 | in every run, a queued node's `next` is set exactly when the thread behind has stored the link, each swap yielded the node before, and `tail` is the last |
| MCSLock.SomebodyMoves | CppParallelSuite/locks/MCSLock.hpp:43-65 | no hand-over is lost: while a thread is in the queue, some thread in it has a step that is not spinning and brings its call nearer to its end |
| MCSLock.EveryStepCounts | CppParallelSuite/locks/MCSLock.hpp:35-66 | in every run, a step within a call is spinning and changes nothing, or lowers the number of steps left in the call |
| MCSLock.CallsEnd | CppParallelSuite/locks/MCSLock.hpp:35-66 | in every run, a schedule that starts no call and lets nobody spin has at most ten steps for each thread, and when it cannot be continued every thread is outside |
| MCSLock.HandsOver | CppParallelSuite/locks/MCSLock.hpp:52-66 | in every run, a thread with the lock whose node is the tail or whose `next` is set is outside after at most six steps of its own (four when `unlock` sees `next` at once), gone from the head of the queue, with the flag of the next one cleared and no other thread moved |
| MCSLock.IdleNodeIsClean | CppParallelSuite/locks/MCSLock.hpp:52-66 | the node of a thread outside has `next == nullptr` and `locked == false` |
| MCSLock.CountsUp | CppParallelSuite/bench/test/TestLocks.cpp:24-50 | the counting test ends at threads times iterations with this lock |
| CLHLock.EveryScheduleRuns | CppParallelSuite/locks/CLHLock.hpp:35-57 | no schedule ever leads to following a null pointer |
| CLHLock.RefinesFifo | CppParallelSuite/locks/CLHLock.hpp:35-57 | whatever the schedule, the lock behaves like the specification: threads enter in the order of the exchanges, one at a time, and leave in that order |
| CLHLock.RefinesFifoIff | CppParallelSuite/locks/CLHLock.hpp:24-57 | every schedule runs and behaves so if and only if the ids of the threads differ modulo the number of thread-local cells |
| CLHLock.Overtakes | CppParallelSuite/locks/CLHLock.hpp:52-57 | two threads that share their cells: the first takes over another node, queues up behind the second and gets in before it |
| CLHLock.MutualExclusion | CppParallelSuite/locks/CLHLock.hpp:35-57 | at most one thread inside |
| CLHLock.MutualExclusionIff | CppParallelSuite/locks/CLHLock.hpp:24-57 | mutual exclusion in every run if and only if the ids of the threads differ modulo the number of thread-local cells |
| CLHLock.NodesArePartitioned | CppParallelSuite/locks/CLHLock.hpp:29-57 | each of the n + 1 nodes belongs to exactly one of n threads, or is the one released node in front |
| CLHLock.RecycledNodeIsUnwatched | CppParallelSuite/locks/CLHLock.hpp:40-57 | a node about to be set `locked = true` is watched by nobody |
| CLHLock.SomebodyMoves | CppParallelSuite/locks/CLHLock.hpp:47-57 | while the queue is not empty its first thread has a step that is not spinning |
| CLHLock.EveryStepCounts | CppParallelSuite/locks/CLHLock.hpp:35-57 | in every run, a step within a call is spinning and changes nothing, or lowers the number of steps left in the call |
| CLHLock.CallsEnd | CppParallelSuite/locks/CLHLock.hpp:35-57 | in every run, a schedule that starts no call and lets nobody spin has at most six steps for each thread, and when it cannot be continued every thread is outside |
| CLHLock.IdleCellIsClear | CppParallelSuite/locks/CLHLock.hpp:52-57 | in every run, a thread that has not swapped itself in has a null predecessor cell and a node that is not the tail |
| CLHLock.CountsUp | CppParallelSuite/bench/test/TestLocks.cpp:24-50 | the counting test ends at threads times iterations with this lock |
| ALock.ServesIff | CppParallelSuite/locks/ALock.hpp:23-42 | with a wrapping `tail`: every run behaves like the specification and its first waiter can always go on, if and only if the ids of the threads differ modulo `ThreadCount` and `ThreadCount` divides the range of `tail` |
| ALock.RefinesFifoIff | CppParallelSuite/locks/ALock.hpp:23-42 | when `ThreadCount` divides the range, every run behaves like the specification if and only if the ids differ modulo `ThreadCount` |
| ALock.MutualExclusionIff | CppParallelSuite/locks/ALock.hpp:29-42 | when `ThreadCount` divides the range, mutual exclusion in every run if and only if the ids differ modulo `ThreadCount` |
| ALock.OneToken | CppParallelSuite/locks/ALock.hpp:29-42 | one flag is set, or a thread is inside and none is; never two threads inside; the slots of contending threads differ |
| ALock.SomebodyMoves | CppParallelSuite/locks/ALock.hpp:32-41 | while a thread is in the queue, the first one has a step that is not spinning |
| ALock.CallsEnd | CppParallelSuite/locks/ALock.hpp:29-42 | in every run, a schedule that starts no call and lets nobody spin has at most five steps for each thread, and when it cannot be continued every thread is outside |
| ALock.Overtakes | CppParallelSuite/locks/ALock.hpp:38-42 | two threads that share a cell: the first overtakes the second |
| ALock.StuckAfterWrap | CppParallelSuite/locks/ALock.hpp:29-34 | when `ThreadCount` does not divide the range, one thread alone gets stuck as soon as `tail` has wrapped around |
| ALock.CountsUp | CppParallelSuite/bench/test/TestLocks.cpp:24-50 | the counting test ends at threads times iterations with this lock |
| TwoCounterLock.RefinesFifo | CppParallelSuite/locks/TwoCounterLock.hpp:19-29 | wrapping counters behave like the specification, first come, first served, for unbounded runs with no more threads than counter values |
| TwoCounterLock.SomebodyMoves | CppParallelSuite/locks/TwoCounterLock.hpp:22-28 | while a thread is in the queue, the first one has a step that is not spinning |
| TwoCounterLock.CallsEnd | CppParallelSuite/locks/TwoCounterLock.hpp:19-29 | in every run, a schedule that starts no call and lets nobody spin has at most two steps for each thread, and when it cannot be continued every thread is outside |
| TwoCounterLock.MutualExclusionIff | CppParallelSuite/locks/TwoCounterLock.hpp:13-29 | mutual exclusion in every run if and only if there are no more threads than counter values |
| TwoCounterLock.CountsUp | CppParallelSuite/bench/test/TestLocks.cpp:24-50 | the counting test ends at threads times iterations with this lock |
| ThreadLocal.Cells.constructor | CppParallelSuite/threadlocal/ThreadLocal.hpp:23-33 | all slots start unset |
| ThreadLocal.Cells.Get | CppParallelSuite/threadlocal/ThreadLocal.hpp:43-50 | the value of the slot, or the default, which is then stored; other slots stay |
| ThreadLocal.Cells.IsSet | CppParallelSuite/threadlocal/ThreadLocal.hpp:53-56 | whether the thread's slot was set |
| ThreadLocal.Cells.Set | CppParallelSuite/threadlocal/ThreadLocal.hpp:58-62 | exactly the thread's slot changes |
| ThreadLocal.PrivateIff | CppParallelSuite/threadlocal/ThreadLocal.hpp:18-62 | over all histories of `get` and `set`, a slot holds what its thread last left in it, if and only if no other thread's id has the same remainder |
| Barrier.RoundsAreSeparate | CppParallelSuite/barrier/Barrier.hpp:23-37 | no k-th `sync` returns before every participant has made its k-th call; nobody is more than one call ahead |
| Barrier.CheckLagsByOne | JavaParallelSuite/src/edu/lsu/cct/parallelsuite/Barrier.java:27-46 | a waiter's `check` equals `march` exactly while its round is unfinished, and lags by one otherwise, however often `march` wrapped |
| Barrier.NoLostWakeup | CppParallelSuite/barrier/Barrier.hpp:23-37 | with the mutex free, `count` is the number of current waiters and below `nThreads`; an outdated sleeper has a notification coming; spurious wakeups allowed |
| Barrier.NeverAllStuck | JavaParallelSuite/src/edu/lsu/cct/parallelsuite/Barrier.java:27-46 | while all participants are in `sync`, one of them can step without a spurious wakeup |
| Barrier.AllReturn | CppParallelSuite/barrier/Barrier.hpp:23-37 | in every run, once every participant has made k calls, every schedule that starts no further call and has no spurious wakeup ends, and when it cannot be continued everybody has returned k times |
| Barrier.ReleasedReturns | JavaParallelSuite/src/edu/lsu/cct/parallelsuite/Barrier.java:27-46 | in every run, a thread whose round is over and that is awake returns within three steps of its own once the mutex is free, and leaves it free |
| HashChain.PutIsPut | CppParallelSuite/maps/LockHashMap.hpp:57-77 | overwriting or appending keeps keys unique and is the map's `put` |
| HashChain.DelIsRemove | CppParallelSuite/maps/LockHashMap.hpp:117-132 | taking the entry out keeps keys unique and is the map's `del` |
| HashChain.OrderKept | CppParallelSuite/maps/LockHashMap.hpp:51-135 | `put` and `del` keep all other entries and their order, and a present key keeps its place |
| LockHashMap.NodeHead.Put | CppParallelSuite/maps/LockHashMap.hpp:57-79 | on heap nodes: the chain stays a chain without cycles, with the key overwritten or appended |
| LockHashMap.NodeHead.Get | CppParallelSuite/maps/LockHashMap.hpp:88-103 | finds the first entry with the key |
| LockHashMap.NodeHead.Del | CppParallelSuite/maps/LockHashMap.hpp:112-134 | on heap nodes: the entry is taken out at the head or behind `prev`, the rest stays a chain |
| LockHashMap.Map.constructor | CppParallelSuite/maps/LockHashMap.hpp:49 | empty buckets, an empty map |
| LockHashMap.Map.Put | CppParallelSuite/maps/LockHashMap.hpp:51-80 | the map's `put`; only the bucket hash % (NumBuckets - 1) changes; the entries stored are the new one and the old ones with other keys; always true |
| LockHashMap.Map.Get | CppParallelSuite/maps/LockHashMap.hpp:82-104 | found if and only if an entry with the key is stored, and then its value |
| LockHashMap.Map.Del | CppParallelSuite/maps/LockHashMap.hpp:106-135 | the map's `del`; only the bucket hash % (NumBuckets - 1) changes; exactly the entry with the key goes, and true if and only if there was one |
| Buckets.ApplyInBucket | CppParallelSuite/maps/LockHashMap.hpp:44-46 | an operation on the bucket of its key is the operation on the union of all buckets, and every key stays in its bucket |
| ChainTable.LastIsEmpty | CppParallelSuite/maps/LockHashMap.hpp:44-46 | the last bucket is never used |
| LockHashMapRuns.Linearizable | CppParallelSuite/maps/LockHashMap.hpp:39-135 | every interleaving of `put`, `get` and `del` is linearizable |
| LockHashMapRuns.KeysStayPut | CppParallelSuite/maps/LockHashMap.hpp:44-135 | in every reachable state a key is in one node at most, in the bucket hash % (NumBuckets - 1) |
| LockHashMapRuns.ChainsAsSequential | CppParallelSuite/maps/LockHashMap.hpp:51-135 | in every run, the step that settles a `put` or `del` leaves all chains, entry for entry and in order, as the sequential loop does; no other step changes one |
| LockHashMapRuns.AnswersAreRight | CppParallelSuite/maps/LockHashMap.hpp:51-135 | in every run, at the step that settles a call: `get` and `del` answer true if and only if an entry with the key is stored, `put` always; `get` finds the stored entry |
| LockHashMapRuns.EffectsAreRight | CppParallelSuite/maps/LockHashMap.hpp:51-135 | in every run, only the settling step of a `put` or `del` changes which entries are stored: `put` replaces the key's entry by its own, `del` takes it away |
| LockHashMapRuns.OneInside | CppParallelSuite/maps/LockHashMap.hpp:39-42 | one thread at a time works on a chain; it never lacks the node it needs, and whoever waits waits for a thread that can step |
| LockHashMapCalls.Completes | CppParallelSuite/maps/LockHashMap.hpp:51-135 | in every run, a call that holds its bucket's lock or finds it free returns by its own steps alone, at most ten and three for each node, whatever the others are at, with the answer and effect of the operation |
| LockHashMapCalls.CallsEnd | CppParallelSuite/maps/LockHashMap.hpp:39-135 | in every run, once no further call is started every schedule ends within a bound given by the threads and the longest chain, and when no step is left every call has returned |
| SetBasedMap.ElementsStayPut | CppParallelSuite/maps/SetBasedMap.hpp:43-72 | in every run, an element is in the set of bucket hash % (NumBuckets - 1) only |
| SetBasedMapEnds.CallsEnd | CppParallelSuite/maps/SetBasedMap.hpp:43-72 | in every run over any kind of list set, once no further call is started every schedule is finite, and when no step is left every call has returned |
| SetBasedMap.Linearizable | CppParallelSuite/maps/SetBasedMap.hpp:43-72 | over any kind of list set, the map is linearizable as a put-if-absent map |
| SetBasedMap.EventRefines | CppParallelSuite/maps/SetBasedMap.hpp:50-72 | a step of the set of one bucket is the same step of the whole map |
| MapsAgree.SameAnswersIff | CppParallelSuite/maps/SetBasedMap.hpp:50-72 | for a run of SetBasedMap and a run of LockHashMap with the same operations, one after the other: equal answers if and only if every `put` is of an absent key, and then equal bindings; any kind of set, any numbers of buckets and threads |
| MapsAgree.BothCanRun | CppParallelSuite/maps/LockHashMap.hpp:51-135 | for any operations both maps have such runs: a call that runs alone is never blocked and ends |
| MapsAgree.OverlappingIff | CppParallelSuite/maps/SetBasedMap.hpp:50-72 | with overlapping calls, what a run of SetBasedMap showed is step for step a history of a map whose `put` overwrites, if and only if no `put` took effect on a present key |
| MapsCompared.SameResultsIff | CppParallelSuite/maps/SetBasedMap.hpp:15-32 | operations applied one after the other: put-if-absent and an overwriting put give the same answers if and only if no `put` meets a present key |
| SequentialHistories.Deterministic | CppParallelSuite/maps/LockHashMap.hpp:51-135 | of the specification: when calls do not overlap, answers and final contents are those of the operations applied in order |

## Left out

- TASLock, TTASLock, BackoffLock, IdLock, TIdLock: one-word locks whose mutual exclusion is a one-line invariant.
- OptimizedALock and the Java copies of the locks: the protocols of ALock, MCSLock, CLHLock and TwoCounterLock again.
- LockHashSet: the chains of LockHashMap without values. LockHashMap.java: the same chains; it answers with the old value, and a negative hash is no bucket index.
- ToySoldiersSim: a soldier's stored position and its tile can diverge, so there is no state invariant to prove.
- Benchmarks, statistics, build files, the HPX variants, and the adapters SlimSet, SlimMap and SlimLock.
- Weak memory ordering and data races on plain fields, the lifetime of nodes, destructors.
- Fairness of the scheduler, and how often an unfair one lets a waiter spin or a searching call start over while others keep starting new calls. Proved instead: the order of entry, and that without new calls every schedule ends with every call returned.
- The locks and the barrier are step systems on values, not classes: their fields are shared by all threads at every step.
- The Java exception after OptimisticSet's null pointer, which unlocks both nodes and leaves the call; in the model the thread stops there.
- SequentialListSets.ListSet.Find: does not model the mutexes, because there is one caller; ListSets does.
- LockHashMapRuns.Linearizable: uses positions in a chain for pointers to nodes, which are stable while the mutex is held; LockHashMap has the pointers.
- LockHashMap.Map.Get: gives 0 for `outValue` when the key is absent, where the C++ text leaves the caller's variable alone.
- ALock.MutualExclusionIff: assumes that `ThreadCount` divides the range of `tail`; for other sizes ALock.StuckAfterWrap has the failure.
- ALock.RefinesFifoIff: speaks of the order of entry only when `ThreadCount` divides the range of `tail`; ALock.ServesIff has no such restriction.
- SetBasedMap.Linearizable: has the answers of the C++ map, also over a Java set; in SetBasedMap.java `put` and `remove` always return null, and a negative hash is no bucket index.
