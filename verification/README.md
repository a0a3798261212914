# Verified models of rebalancer's core data structures

This project models the in-memory data structures and solve loops of the
rebalancer in Dafny and proves what they promise. In most places a fast form is
proved to agree with a simple one, for all inputs and all histories of calls.

The files follow the program's parts.

| part | files |
|---|---|
| Incremental ranking queues, old and new, in lockstep | Ranking, RankingMeaning, PriorityQueueV1, GroupIndex, PriorityQueueV2, QueueAgreement |
| Aggregating trees | AvlMap, AvlHistory, HeapLayout, FixedMap, HybridMap, SegmentTree |
| Multi-objective solve loop | MultiObjective |
| Concurrent protocols as step relations | SparseCache, AtomicUnion, BatchReduce |
| Compact value storage | Bits, DynamicBitSet, CompressedIdMap, ObjectPartition, ObjectValues, DynamicDimension, DimensionRoundTrip |
| Resuming circular iteration | CircularQueue, AccessOrderedSets, AccessOrderedRuns |
| Regular expressions for string lists | RegexSyntax, Grouping, RegexCompiler, RegexLanguage |
| Linear expressions and constraint rows | Precision, LinearForms, Expressions, Operators, Relations |
| Shared | Options, Collections, Powers, Strings, Sorting, Monoids |

How the program is rendered:

- Objects that change in place are classes with the same fields; list nodes are
  named by numbers, so that an iterator is a node's name. Hash containers are maps
  and sets, and loops over them take the elements in an arbitrary order.
- Doubles are reals. Tolerances are kept where the code uses them.
- Exceptions are `None` results or a false flag. Checks that abort the process on a
  bad index are preconditions.
- Backend solvers are an arbitrary answer per solve; "exact" means the answer is
  right about the constraints it was given. Running out of time is an arbitrary
  flag per solve.
- Atomic operations and critical sections are single steps taken in any order.

Where the code and its comments differ, the code is modelled:

- The comment on `AssociativeMap` promises an aggregation in a stable order. The
  rotations make the order depend on the history, so the result is stable exactly
  for commutative and associative operations (`AvlHistory.HistoryIndependence`).
- The comment on `IncrementalPriorityQueueV2` decides ties by the first call that
  contains one item and not the other. An item listed twice in one call counts
  twice (`RankingMeaning.RepeatBreaksContainment`); when the comment holds is stated
  by `RankingMeaning.WordingExactly`.
- Results of earlier calls stay in the list from which `solve` computes its final
  status, so a second call can report less than was found
  (`MultiObjective.LeftoversMatter`, `MultiObjective.SolvingTwice`).
- An allowed worsening with a negative absolute part can pin an objective below its
  own optimum, so that a feasible problem is reported infeasible
  (`MultiObjective.ReportsTrulyWhen`).
- `SparseCache` is safe for every chunk size but one entry per chunk
  (`SparseCache.NoCrashExactly`).
- Group-backed `ObjectValues` count explicit default entries of non-empty groups,
  unlike the object-backed form (`ObjectValues.CountAndIterationAgree`), and sum
  objects that are not in the problem (`ObjectValues.SumExactly`).
- `AssociativeHybridMap` stores every listing of a repeated key and aggregates all
  of them (`HybridMap.InitExactly`).
- A dynamic dimension built from object maps with defaults of their own loses those
  defaults when it is serialized (`DimensionRoundTrip.RoundTrip`).
- The docstring of `regexListMatchExpr` promises a match for the strings of the list.
  A wildcard does not match a newline by default (`RegexLanguage.InputsAlwaysMatch`).
- The comment on `atomicOrFrom` speaks of a result that the method does not return.

## Model

| member | source | states |
|---|---|---|
| `QueueAgreement.Lockstep` | algopt/rebalancer/algopt_common/tests/IncrementalPriorityQueueTest.cpp:253-292 | For every list of update and remove calls, with items repeated within one update or not, both queues show after every call the same size, the same top item (or the same exception) and the same strictness, and these are the ones the ranking defines |
| `QueueAgreement.ApplyAndObserve` | algopt/rebalancer/algopt_common/IncrementalPriorityQueueV2.h:95-124 | One call on both queues keeps both invariants and leaves both on the same ranking |
| `QueueAgreement.ShowsUnique` | algopt/rebalancer/algopt_common/IncrementalPriorityQueue.h:46-69 | A ranking can be shown in one way only, so agreement with the ranking is agreement of the two queues |
| `RankingMeaning.RunMeaning` | algopt/rebalancer/algopt_common/IncrementalPriorityQueue.h:71-99 | After any history the queue holds exactly the items listed by some update and removed by no call, each with one stamp per listing in order; removal is permanent |
| `RankingMeaning.QueueOrderMeaning` | algopt/rebalancer/algopt_common/IncrementalPriorityQueue.h:26-32 | For every history, of two queued items the first update that lists one more often than the other decides, and without such an update they are tied |
| `RankingMeaning.AppearancesDecide` | algopt/rebalancer/algopt_common/IncrementalPriorityQueue.h:104-126 | The comparison of stamp sequences is that rule, in both directions |
| `RankingMeaning.BeforePersists` | algopt/rebalancer/algopt_common/IncrementalPriorityQueueV2.h:39-42 | Later updates cannot reverse an order established earlier |
| `RankingMeaning.ContainmentDecides` | algopt/rebalancer/algopt_common/IncrementalPriorityQueueV2.h:32-35 | The documented rule (the first call containing one item but not the other) holds of two items after every update exactly when each update that finds them tied and contains both lists them equally often |
| `RankingMeaning.WordingExactly` | algopt/rebalancer/algopt_common/IncrementalPriorityQueueV2.h:32-35 | For every history with removals, the documented rule orders the queue after every call exactly when no update that finds two queued items tied and contains both lists one of them more often |
| `RankingMeaning.RepeatBreaksContainment` | algopt/rebalancer/algopt_common/IncrementalPriorityQueueV2.h:32-35 | A concrete update with a repeated item on which the documented rule fails |
| `PriorityQueueV2.GroupsAreTies` | algopt/rebalancer/algopt_common/IncrementalPriorityQueueV2.h:37-42 | In every settled state two items are in one group exactly when their stamp sequences are equal, and an earlier group holds exactly the earlier sequences |
| `PriorityQueueV2.IncrementalPriorityQueueV2.constructor` | algopt/rebalancer/algopt_common/IncrementalPriorityQueueV2.h:54 | The new queue is the empty ranking |
| `PriorityQueueV2.IncrementalPriorityQueueV2.Update` | algopt/rebalancer/algopt_common/IncrementalPriorityQueueV2.h:107-124 | The groups, the location index, the spare groups, the size and the sorted cache stay consistent and now stand for the ranking after the update |
| `PriorityQueueV2.IncrementalPriorityQueueV2.UpdateItems` | algopt/rebalancer/algopt_common/IncrementalPriorityQueueV2.h:112-121 | The item loop stamps each listed item once per listing, new groups sitting right before the groups they were split from |
| `PriorityQueueV2.IncrementalPriorityQueueV2.AddNewItem` | algopt/rebalancer/algopt_common/IncrementalPriorityQueueV2.h:196-205 | A first-seen item goes to this update's group at the back |
| `PriorityQueueV2.IncrementalPriorityQueueV2.MoveToNewGroupBeforeCurrentGroup` | algopt/rebalancer/algopt_common/IncrementalPriorityQueueV2.h:207-216 | A known item moves to the group right before its own, which carries its stamps and one more |
| `PriorityQueueV2.IncrementalPriorityQueueV2.RemoveItemFromGroup` | algopt/rebalancer/algopt_common/IncrementalPriorityQueueV2.h:218-228 | Swap-and-pop: the group loses one item and the item moved into its place is re-indexed |
| `PriorityQueueV2.IncrementalPriorityQueueV2.AppendItemToGroup` | algopt/rebalancer/algopt_common/IncrementalPriorityQueueV2.h:190-194 | The item goes to the end of the group and the returned location points at it |
| `PriorityQueueV2.IncrementalPriorityQueueV2.UpdateSortedTopGroupItemsAfterRemoval` | algopt/rebalancer/algopt_common/IncrementalPriorityQueueV2.h:230-241 | The cache follows the removal of its last element and is dropped for any other removal from the top group |
| `PriorityQueueV2.IncrementalPriorityQueueV2.InvalidateSortedTopGroupItemsIfNeeded` | algopt/rebalancer/algopt_common/IncrementalPriorityQueueV2.h:243-247 | The cache is dropped exactly when the top group is touched |
| `PriorityQueueV2.IncrementalPriorityQueueV2.GetOrCreateNewGroupBefore` | algopt/rebalancer/algopt_common/IncrementalPriorityQueueV2.h:249-259 | The group right before the source group carries the source stamps and the update number; it is created once per update |
| `PriorityQueueV2.IncrementalPriorityQueueV2.FinishGroupSplits` | algopt/rebalancer/algopt_common/IncrementalPriorityQueueV2.h:261-267 | All split marks are cleared and emptied source groups recycled: the state is settled |
| `PriorityQueueV2.IncrementalPriorityQueueV2.EraseGroupIfEmpty` | algopt/rebalancer/algopt_common/IncrementalPriorityQueueV2.h:269-279 | An empty group leaves the order and is kept for reuse; nothing else changes |
| `PriorityQueueV2.IncrementalPriorityQueueV2.InsertGroupAt` | algopt/rebalancer/algopt_common/IncrementalPriorityQueueV2.h:281-289 | A spare or new group is spliced in at the position; spare groups stay disjoint from live ones |
| `PriorityQueueV2.IncrementalPriorityQueueV2.Remove` | algopt/rebalancer/algopt_common/IncrementalPriorityQueueV2.h:94-105 | The queue stands for the ranking without the item, which later updates ignore |
| `PriorityQueueV2.IncrementalPriorityQueueV2.Ban` | algopt/rebalancer/algopt_common/IncrementalPriorityQueueV2.h:180-188 | Removing an item never seen changes no rank but is remembered |
| `PriorityQueueV2.IncrementalPriorityQueueV2.BestItemInTopGroup` | algopt/rebalancer/algopt_common/IncrementalPriorityQueueV2.h:166-178 | The smallest item of the top group, from the sorted copy when there is one |
| `PriorityQueueV2.IncrementalPriorityQueueV2.Top` | algopt/rebalancer/algopt_common/IncrementalPriorityQueueV2.h:84-87 | None exactly when empty, otherwise the top item of the ranking |
| `PriorityQueueV2.IncrementalPriorityQueueV2.IsTopStrict` | algopt/rebalancer/algopt_common/IncrementalPriorityQueueV2.h:89-92 | None exactly when empty, otherwise whether no other item ties with the top |
| `PriorityQueueV1.ValueSortedMap.Erase` | algopt/rebalancer/algopt_common/ValueSortedMap.h:89-95 | Hash map and ordered set lose the key together |
| `PriorityQueueV1.ValueSortedMap.Assign` | algopt/rebalancer/algopt_common/ValueSortedMap.h:97-120 | Hash map and ordered set hold the same pairs, the set strictly sorted, after any assignment |
| `PriorityQueueV1.Compare` | algopt/rebalancer/algopt_common/IncrementalPriorityQueue.h:104-126 | The comparison loop decides the order on pairs of item and sequence |
| `PriorityQueueV1.PairAheadStrictTotal` | algopt/rebalancer/algopt_common/IncrementalPriorityQueue.h:104-126 | That order is a strict total order, as the ordered set needs |
| `PriorityQueueV1.IncrementalPriorityQueue.Update` | algopt/rebalancer/algopt_common/IncrementalPriorityQueue.h:78-99 | The queue stands for the ranking after the update |
| `PriorityQueueV1.IncrementalPriorityQueue.Remove` | algopt/rebalancer/algopt_common/IncrementalPriorityQueue.h:71-76 | The queue stands for the ranking without the item |
| `PriorityQueueV1.IncrementalPriorityQueue.Top` | algopt/rebalancer/algopt_common/IncrementalPriorityQueue.h:46-53 | None exactly when empty, otherwise the top item of the ranking |
| `PriorityQueueV1.IncrementalPriorityQueue.IsTopStrict` | algopt/rebalancer/algopt_common/IncrementalPriorityQueue.h:55-69 | None exactly when empty, otherwise whether no other item ties with the top |
| `PriorityQueueV1.IncrementalPriorityQueue.StrictnessFromSecond` | algopt/rebalancer/algopt_common/IncrementalPriorityQueue.h:64-68 | Comparing the two best sequences decides strictness against all items |
| `AvlHistory.HistoryIndependence` | algopt/rebalancer/algopt_common/AssociativeMap.h:26-29 | For an operation with a neutral element, the aggregate depends only on the stored map, whatever the history, if and only if the operation is commutative and associative |
| `AvlHistory.RunKeeps` | algopt/rebalancer/algopt_common/AssociativeMap.h:132-285 | After every history the tree is a balanced search tree with correct heights and results, holds the plain map, and its height is logarithmic in the number of keys |
| `AvlHistory.QueriesAreFolds` | algopt/rebalancer/algopt_common/AssociativeMap.h:49-70 | After every history, query, query_lt and query_le are the folds of the plain map, for a commutative monoid |
| `AvlMap.RotateLeftKeeps` | algopt/rebalancer/algopt_common/AssociativeMap.h:155-165 | A left rotation keeps contents, order and results |
| `AvlMap.RotateRightKeeps` | algopt/rebalancer/algopt_common/AssociativeMap.h:167-178 | A right rotation keeps contents, order and results |
| `AvlMap.RebalanceRestores` | algopt/rebalancer/algopt_common/AssociativeMap.h:184-200 | Rebalancing two correct subtrees whose heights differ by at most two restores the whole invariant, keeps the contents and costs at most one level |
| `AvlMap.InsertKeeps` | algopt/rebalancer/algopt_common/AssociativeMap.h:203-226 | Insertion keeps the invariant, sets exactly the key, reports whether it was new, and grows the height by at most one |
| `AvlMap.ExtractMinKeeps` | algopt/rebalancer/algopt_common/AssociativeMap.h:229-238 | The least node is split off, the rest keeps the invariant |
| `AvlMap.MergeKeeps` | algopt/rebalancer/algopt_common/AssociativeMap.h:241-250 | Merging the subtrees of a node drops exactly its key |
| `AvlMap.RemoveKeeps` | algopt/rebalancer/algopt_common/AssociativeMap.h:253-267 | Removal keeps the invariant and drops exactly the key, present or not |
| `AvlMap.ResultIsFold` | algopt/rebalancer/algopt_common/AssociativeMap.h:132-140 | Every stored result is the fold of its subtree |
| `AvlMap.LessThanIsFold` | algopt/rebalancer/algopt_common/AssociativeMap.h:270-285 | The prefix recursion is the fold of the keys below the bound |
| `AvlMap.GetIsLookup` | algopt/rebalancer/algopt_common/AssociativeMap.h:110-124 | The search finds exactly the stored value |
| `AvlMap.HeightLogarithmic` | algopt/rebalancer/algopt_common/AssociativeMap.h:184-200 | Two to half the height is at most the number of keys plus one |
| `AvlMap.AssociativeMap.Update` | algopt/rebalancer/algopt_common/AssociativeMap.h:37-39 | The stored map changes at the key only |
| `AvlMap.AssociativeMap.Remove` | algopt/rebalancer/algopt_common/AssociativeMap.h:45-47 | The stored map loses the key only |
| `AvlMap.AssociativeMap.QueryBelow` | algopt/rebalancer/algopt_common/AssociativeMap.h:56-70 | The fold of the keys less than, or at most, the bound; neutral on the empty map |
| `HeapLayout.LeftChildSize` | algopt/rebalancer/algopt_common/AssociativeFixedMap.h:88-106 | For every n the closed form is the number of indices of 1..n in the left subtree |
| `HeapLayout.SubtreeShape` | algopt/rebalancer/algopt_common/AssociativeFixedMap.h:88-106 | A subtree of the layout has the layout of its own size, so the closed form applies at every node |
| `HeapLayout.FillsEachOnce` | algopt/rebalancer/algopt_common/AssociativeFixedMap.h:121-139 | For every n, filling writes each index 1..n exactly once and no other |
| `FixedMap.AssociativeFixedMap.InitTree` | algopt/rebalancer/algopt_common/AssociativeFixedMap.h:121-139 | The slice is laid out so that reading the subtree in order gives it back, only that subtree is written, and in the filling order above |
| `FixedMap.AssociativeFixedMap.InitChildren` | algopt/rebalancer/algopt_common/AssociativeFixedMap.h:126-133 | A child index is inside the array exactly when its slice is non-empty |
| `FixedMap.AssociativeFixedMap.UpdateResult` | algopt/rebalancer/algopt_common/AssociativeFixedMap.h:108-119 | A node on top of two correct subtrees becomes correct |
| `FixedMap.AssociativeFixedMap.Init` | algopt/rebalancer/algopt_common/AssociativeFixedMap.h:40-48 | In order, the tree holds the given pairs, none lost, sorted by key and then by value; the empty list empties it |
| `FixedMap.AssociativeFixedMap.UpdateTree` | algopt/rebalancer/algopt_common/AssociativeFixedMap.h:141-153 | Replaces the value at the key below the node, or reports that the key is missing and changes nothing |
| `FixedMap.AssociativeFixedMap.Update` | algopt/rebalancer/algopt_common/AssociativeFixedMap.h:50-52 | Replaces one value, or throws exactly when the key is missing |
| `FixedMap.AssociativeFixedMap.Count` | algopt/rebalancer/algopt_common/AssociativeFixedMap.h:54-56 | One exactly when the key is stored |
| `FixedMap.CountIsMembership` | algopt/rebalancer/algopt_common/AssociativeFixedMap.h:155-165 | The search below a node counts membership in its in-order list |
| `FixedMap.AssociativeFixedMap.Query` | algopt/rebalancer/algopt_common/AssociativeFixedMap.h:58-63 | The in-order fold of all values, for any associative operation with a neutral element |
| `FixedMap.AssociativeFixedMap.QueryBelow` | algopt/rebalancer/algopt_common/AssociativeFixedMap.h:65-79 | The in-order fold of the values of keys below the bound |
| `FixedMap.LessThanIsFold` | algopt/rebalancer/algopt_common/AssociativeFixedMap.h:167-184 | The prefix recursion is the in-order fold below the bound |
| `HybridMap.AssociativeHybridMap.Init` | algopt/rebalancer/algopt_common/AssociativeHybridMap.h:37-40 | All pairs are stored, repeated keys included; without repeated keys the hybrid map stands for the given items |
| `HybridMap.AssociativeHybridMap.Update` | algopt/rebalancer/algopt_common/AssociativeHybridMap.h:42-48 | It stands for the plain map with the key set, wherever the key is stored; of a repeated key one stored pair is changed |
| `HybridMap.AssociativeHybridMap.Remove` | algopt/rebalancer/algopt_common/AssociativeHybridMap.h:50-56 | It stands for the plain map without the key, although a fixed key stays stored as neutral |
| `HybridMap.PaddingUnseen` | algopt/rebalancer/algopt_common/AssociativeHybridMap.h:50-60 | Neutral padding cannot be told from absence by any aggregate |
| `HybridMap.AssociativeHybridMap.Query` | algopt/rebalancer/algopt_common/AssociativeHybridMap.h:58-60 | The commutative-monoid fold of the plain map; with repeated keys, of all stored pairs |
| `HybridMap.AssociativeHybridMap.QueryBelow` | algopt/rebalancer/algopt_common/AssociativeHybridMap.h:62-70 | The commutative-monoid fold of the plain map below the bound; with repeated keys, of all stored pairs below it |
| `HybridMap.InitExactly` | algopt/rebalancer/algopt_common/AssociativeHybridMap.h:37-60 | For every list of keys, every commutative monoid with more than one value and whichever listing of a key is taken to count, the query after initialization is the fold of the map for all values exactly when no key is listed twice |
| `HybridMap.InitMeansMap` | algopt/rebalancer/algopt_common/AssociativeHybridMap.h:37-60 | The same for the key-value map of the list, in which the first listing of a key counts |
| `HybridMap.EqualKeysAddUp` | algopt/rebalancer/algopt_common/AssociativeHybridMap.h:79-83 | Two listings of one key, whose values are added up |
| `SegmentTree.TreeSize` | algopt/rebalancer/algopt_common/AssociativeVector.h:64-73 | The least power of two that is at least twice n (zero for none), enough for every node of the recursion |
| `SegmentTree.FitsIndex` | algopt/rebalancer/algopt_common/AssociativeVector.h:75-112 | Every node index the recursions touch is below the tree size |
| `SegmentTree.AssociativeVector.Init` | algopt/rebalancer/algopt_common/AssociativeVector.h:38-44 | The tree stands for the given values |
| `SegmentTree.AssociativeVector.InitNode` | algopt/rebalancer/algopt_common/AssociativeVector.h:75-84 | Each node of the subtree combines its range, and nothing outside is written |
| `SegmentTree.AssociativeVector.Update` | algopt/rebalancer/algopt_common/AssociativeVector.h:46-48 | One position changes; an index out of range is clamped to the nearest one |
| `SegmentTree.AssociativeVector.UpdateNode` | algopt/rebalancer/algopt_common/AssociativeVector.h:86-98 | The path to the index is recombined, and nothing outside is written |
| `SegmentTree.QueryIsFold` | algopt/rebalancer/algopt_common/AssociativeVector.h:100-112 | A range query is the in-order fold of the part of the range inside the node, commutativity not needed |
| `SegmentTree.AssociativeVector.Query` | algopt/rebalancer/algopt_common/AssociativeVector.h:54-56 | The in-order fold of the positions in range |
| `SegmentTree.AssociativeVector.QueryAll` | algopt/rebalancer/algopt_common/AssociativeVector.h:50-52 | The in-order fold of all positions |
| `MultiObjective.LexicographicallyMinimal` | algopt/lp/generic/Problem.cpp:248-337 | With an exact solver, every objective solved to optimality and no allowed worsening, the last point is lexicographically minimal over the original feasible set |
| `MultiObjective.OptimalStatusIsMinimal` | algopt/lp/generic/Problem.cpp:165-181 | A fresh run that ends with OPTIMAL_FOUND is a proof of that minimality |
| `MultiObjective.OptimalWithinPins` | algopt/lp/generic/Problem.cpp:211-239 | With worsening allowed, each objective is still optimal among the points meeting the bounds pinned before it |
| `MultiObjective.FinalPointMeetsPins` | algopt/lp/generic/Problem.cpp:211-239 | The last point meets the original constraints and every pinned bound |
| `MultiObjective.NextStaysFeasible` | algopt/lp/generic/Problem.cpp:228-238 | The point just found stays feasible exactly when its pinned bound is not below its value |
| `MultiObjective.NeverTightensWhen` | algopt/rebalancer/algopt_common/thrift/ThriftUtils.h:24-37 | Pinned bounds never fall below the value, for all values, exactly when each configured worsening has a non-negative absolute part or no percentage |
| `MultiObjective.ReportsTrulyWhen` | algopt/lp/generic/Problem.cpp:142-181 | For every configuration, NO_SOLUTION_EXISTS from an exact solver is true of the given constraints in all runs exactly when no configured worsening has both a negative absolute part and a percentage |
| `MultiObjective.EntryNeverTightens` | algopt/rebalancer/algopt_common/thrift/ThriftUtils.h:24-37 | The same for one entry |
| `MultiObjective.TighteningLosesFeasibility` | algopt/rebalancer/algopt_common/thrift/ThriftUtils.h:24-37 | A configuration with a negative absolute part for which a feasible problem is reported infeasible |
| `MultiObjective.OnlyFirstInfeasible` | algopt/lp/generic/Problem.cpp:302-337 | Once one objective has a solution no later solve of an exact solver is infeasible |
| `MultiObjective.StatusMeaning` | algopt/lp/generic/Problem.cpp:142-181 | NO_SOLUTION_EXISTS is reported exactly when the first solve reports it, and then nothing meets the original constraints; found statuses come with a feasible point |
| `MultiObjective.OptimalMeansAllOptimal` | algopt/lp/generic/Problem.cpp:165-170 | On one run's results, OPTIMAL_FOUND exactly when every objective was solved to optimality |
| `MultiObjective.LeftoversMatter` | algopt/lp/generic/Problem.cpp:142-181 | Results kept from earlier runs leave every later status right exactly when all of them are SOLUTION_NOT_FOUND |
| `MultiObjective.SolvingTwice` | algopt/lp/generic/Problem.cpp:343-358 | Solving one objective optimally twice in a row reports OPTIMAL_FOUND and then SOLUTION_FOUND |
| `MultiObjective.ProblemImpl.AddNewConstraintForObjectiveAt` | algopt/lp/generic/Problem.cpp:211-239 | Adds exactly the pin of that objective at the allowed bound |
| `MultiObjective.ProblemImpl.SolveForObjectiveAt` | algopt/lp/generic/Problem.cpp:302-335 | One round: saves the status, stops on no solution or lack of time, otherwise pins every objective but the last |
| `MultiObjective.ProblemImpl.CustomMultiObjectiveIterativeSolve` | algopt/lp/generic/Problem.cpp:248-337 | Stops at the first solve without a solution or in lack of time, appends one status per solve, and leaves exactly the pins of the solves before the last |
| `MultiObjective.ProblemImpl.Solve` | algopt/lp/generic/Problem.cpp:343-358 | Adds the zero objective when there is none, solves once or iteratively, and sets the final status from all saved results |
| `SparseCache.ComputeOnce` | algopt/rebalancer/algopt_common/SparseCache.h:61-131 | In every interleaving of any number of threads and for every chunk size, up to a crash if there is one, onMiss completes at most once per key, all answers for a key are that one value, and every cached chunk pointer is the chunk map's entry |
| `SparseCache.StepMonotone` | algopt/rebalancer/algopt_common/SparseCache.h:83-101 | One step never replaces an installed chunk, changes or loses a saved value, or drops a completion or answer |
| `SparseCache.RunMonotone` | algopt/rebalancer/algopt_common/SparseCache.h:61-131 | The same from any point of any run to any later point |
| `SparseCache.RunKeeps` | algopt/rebalancer/algopt_common/SparseCache.h:61-131 | Every reachable state keeps the whole invariant, and with more than one entry per chunk never reads through a null chunk pointer |
| `SparseCache.StepKeeps` | algopt/rebalancer/algopt_common/SparseCache.h:61-131 | Every single step keeps it |
| `SparseCache.InstallKeeps` | algopt/rebalancer/algopt_common/SparseCache.h:91-98 | Installing a chunk under the write lock leaves all other chunks, pointers and entries alone |
| `SparseCache.EditKeeps` | algopt/rebalancer/algopt_common/SparseCache.h:67-75 | Edits made under an entry's lock keep the invariant |
| `SparseCache.NoCrashExactly` | algopt/rebalancer/algopt_common/SparseCache.h:50-79 | No run reads through a null pointer, for all runs, exactly when a chunk holds more than one entry: with one entry per chunk the largest key's chunk id is the initial cached id |
| `BatchReduce.BatchesPartition` | algopt/rebalancer/common/CoroUtils.h:199-217 | For every item and batch count, each index is in exactly one batch, and batch sizes differ by at most one |
| `BatchReduce.RunEachTaskBatched` | algopt/rebalancer/common/CoroUtils.h:199-217 | All batches together run each index exactly once |
| `BatchReduce.AnyOrder` | algopt/rebalancer/common/CoroUtils.h:409-446 | For every completion order the combined batch folds are the fold of all items, over a commutative monoid |
| `BatchReduce.AccumulateInBatches` | algopt/rebalancer/common/CoroUtils.h:387-446 | The accumulated result equals the serial fold for every item count, thread count and completion order |
| `BatchReduce.Accumulate` | algopt/rebalancer/common/CoroUtils.h:399-402 | One batch, or the serial fallback, folds its items in order |
| `BatchReduce.PairDecodedOnce` | algopt/rebalancer/common/CoroUtils.h:335-338 | Each pair is decoded from exactly one index, in the order of the serial double loop |
| `BatchReduce.MapReduceAllPairs` | algopt/rebalancer/common/CoroUtils.h:298-348 | The parallel result equals the fold over all pairs for every thread count and completion order |
| `BatchReduce.SerialPairs` | algopt/rebalancer/common/CoroUtils.h:307-316 | The serial double loop is the fold over all pairs |
| `DynamicBitSet.BitSet.constructor` | algopt/rebalancer/algopt_common/DynamicBitSet.h:50-52 | The new set is empty |
| `DynamicBitSet.BitSet.Set` | algopt/rebalancer/algopt_common/DynamicBitSet.h:54-69 | Adds exactly the bit and reports whether it was new |
| `DynamicBitSet.BitSet.Clear` | algopt/rebalancer/algopt_common/DynamicBitSet.h:89-95 | Drops exactly the bit |
| `DynamicBitSet.BitSet.MergeFrom` | algopt/rebalancer/algopt_common/DynamicBitSet.h:120-132 | The union, also with itself |
| `DynamicBitSet.BitSet.IsSet` | algopt/rebalancer/algopt_common/DynamicBitSet.h:134-141 | Membership |
| `DynamicBitSet.BitSet.ForEachSetBit` | algopt/rebalancer/algopt_common/DynamicBitSet.h:168-184 | Visits exactly the set bits, each once, in ascending order |
| `DynamicBitSet.VisitBlock` | algopt/rebalancer/algopt_common/DynamicBitSet.h:172-182 | Clearing the lowest bit again and again visits the bits of a word in ascending order |
| `Bits.ClearLowest` | algopt/rebalancer/algopt_common/DynamicBitSet.h:179-180 | A word AND its predecessor clears exactly the lowest set bit |
| `AtomicUnion.EveryInterleaving` | algopt/rebalancer/algopt_common/DynamicBitSet.h:71-118 | For every interleaving of the loads and fetch_or steps of concurrent atomicSet and atomicOrFrom calls, the set always lies between the initial set and its union with all requests, and equals that union once all calls have returned |
| `AtomicUnion.ScheduleDoesNotMatter` | algopt/rebalancer/algopt_common/DynamicBitSet.h:71-118 | Any two schedules that finish leave identical blocks |
| `AtomicUnion.AdvanceEffect` | algopt/rebalancer/algopt_common/DynamicBitSet.h:80-87 | One step loses no bit, adds only requested ones, and a bit stops being owed only once it is there, so the read-first skip is safe |
| `AtomicUnion.EachStepProgresses` | algopt/rebalancer/algopt_common/DynamicBitSet.h:74-118 | Every step of an unfinished thread shrinks the work it has left |
| `AtomicUnion.CanFinish` | algopt/rebalancer/algopt_common/DynamicBitSet.h:74-118 | From every reachable state some schedule finishes |
| `CompressedIdMap.FirstWritesMeaning` | algopt/rebalancer/algopt_common/CompressedIdMap.h:156-180 | The entries of a write sequence are exactly the first non-default write of each key |
| `CompressedIdMap.IdMap.constructor` | algopt/rebalancer/algopt_common/CompressedIdMap.h:93-106 | An empty map in the layout the density decides |
| `CompressedIdMap.IdMap.FromRange` | algopt/rebalancer/algopt_common/CompressedIdMap.h:108-117 | The first non-default writes of the range, in either layout |
| `CompressedIdMap.IdMap.FromSparse` | algopt/rebalancer/algopt_common/CompressedIdMap.h:119-152 | The non-default entries of the hash map, in the layout their number decides |
| `CompressedIdMap.IdMap.Emplace` | algopt/rebalancer/algopt_common/CompressedIdMap.h:156-180 | The first non-default write of a key wins, in either layout |
| `CompressedIdMap.IdMap.GetValue` | algopt/rebalancer/algopt_common/CompressedIdMap.h:182-194 | The entry, or the default |
| `CompressedIdMap.IdMap.NonDefaultSize` | algopt/rebalancer/algopt_common/CompressedIdMap.h:208-210 | The number of non-default entries |
| `CompressedIdMap.IdMap.ForEachNonDefault` | algopt/rebalancer/algopt_common/CompressedIdMap.h:212-224 | Each non-default entry once, in ascending key order when dense |
| `CompressedIdMap.IdMap.EqualityMeans` | algopt/rebalancer/algopt_common/CompressedIdMap.h:154-154 | Member-wise equality holds exactly when layout, size, default and denoted map agree |
| `ObjectPartition.Build` | algopt/rebalancer/entities/Partition.cpp:35-50 | Whatever order the groups are read in, the index is the inverse of the groups with multiplicity and lists each group id once |
| `ObjectPartition.DisjointMeans` | algopt/rebalancer/entities/Partition.cpp:26-32 | A partition reports itself disjoint exactly when no object is in two groups nor twice in one |
| `ObjectPartition.IndexFinds` | algopt/rebalancer/entities/Partition.cpp:87-94 | In a disjoint partition the index names the one group holding an object |
| `ObjectValues.LookupMeaning` | algopt/rebalancer/entities/ObjectValueTypes.h:108-117 | An object of a group has the group's value, an object of no group the default |
| `ObjectValues.Sum` | algopt/rebalancer/entities/ObjectValueTypes.h:74-80 | In either backing the sum is the explicit entries plus the default for the rest as the wrapping size subtraction counts it, or throws exactly for an unknown group; it equals the object-by-object sum when the groups with an entry hold objects of the problem only |
| `ObjectValues.SumGroups` | algopt/rebalancer/entities/ObjectValueTypes.h:135-145 | Group sizes times group values plus the default for the rest is the sum of all explicit entries plus the default for the rest, with the 64-bit subtraction |
| `ObjectValues.SumExactly` | algopt/rebalancer/entities/ObjectValueTypes.h:135-145 | For every disjoint partition, total and set of groups with an entry, the sum equals the object-by-object sum for all values and defaults exactly when every object of those groups is in the problem |
| `ObjectValues.OverrunIsSummed` | algopt/rebalancer/entities/ObjectValueTypes.h:135-145 | A group with one object beyond the problem, which the sum counts |
| `ObjectValues.SumIsTotal` | algopt/rebalancer/entities/ObjectValueTypes.h:74-80 | Both backings sum object by object when no covered object is beyond the problem, and the size subtraction does not wrap around then |
| `ObjectValues.NonDefaultCount` | algopt/rebalancer/entities/ObjectValueTypes.h:127-133 | The number of objects with an explicit entry |
| `ObjectValues.ForEachNonDefault` | algopt/rebalancer/entities/ObjectValueTypes.h:147-154 | Each object with an explicit entry once, with its value |
| `ObjectValues.CountAndIterationAgree` | algopt/rebalancer/entities/ObjectValueTypes.h:97-100 | Count and iteration agree with lookup exactly when no non-empty group carries the default explicitly and the groups with an entry hold objects of the problem only |
| `ObjectValues.DefaultEntryIsCounted` | algopt/rebalancer/entities/ObjectValueTypes.h:127-133 | A group-backed example on which they do not |
| `ObjectValues.ExpandAgrees` | algopt/rebalancer/entities/ObjectValueTypes.h:147-154 | Writing what the iteration visits into an object map, in any order of visits, gives every object the value that lookup gives it |
| `ObjectValues.SliceGroup` | algopt/rebalancer/entities/ObjectValueTypes.h:267-301 | The compact and the expanded slice both denote the original value inside the group and 0 outside, without default entries; only the expanded one throws for an unknown group |
| `DynamicDimension.ObjectDimensionValueStats.Observe` | algopt/rebalancer/entities/ObjectDimensionValueStats.h:24-34 | The statistics summarise the set of values seen so far |
| `DynamicDimension.SummaryUnique` | algopt/rebalancer/entities/ObjectDimensionValueStats.h:23-48 | The statistics are a function of the set of values alone |
| `DynamicDimension.FromObjects` | algopt/rebalancer/entities/ObjectDynamicDimension.cpp:39-66 | Stores the maps, each with its own size and default; statistics and zero flags are those of the default and all visited values |
| `DynamicDimension.FromGroups` | algopt/rebalancer/entities/ObjectDynamicDimension.cpp:68-114 | The same for groups; refused exactly when the partition is not disjoint or a group is unknown |
| `DynamicDimension.GroupsSeenIsSeenIn` | algopt/rebalancer/entities/ObjectDynamicDimension.cpp:87-97 | Observing each non-empty group once sees the same values as observing each of its objects |
| `DynamicDimension.FromThrift` | algopt/rebalancer/entities/ObjectDynamicDimension.cpp:116-161 | Succeeds exactly when every item can be read back; then its items, statistics and zero flags are those of the read items. Only entries that are stored, not default-valued ones, must be in range |
| `DynamicDimension.ReadItem` | algopt/rebalancer/entities/ObjectValueTypes.cpp:37-82 | Each serialized item is read back without its default-valued entries, or throws |
| `DynamicDimension.DropDefaults` | algopt/rebalancer/entities/ObjectValueTypes.cpp:20-34 | Exactly the non-default entries are kept |
| `DimensionRoundTrip.RoundTrip` | algopt/rebalancer/entities/ObjectDynamicDimension.cpp:254-267 | Serializing and rebuilding succeeds and preserves scope, default, maximum, minimum positive value, negative flag and all zero flags; every object that could be read still can, and through each getter keeps its value at a scope item exactly when the item is group-backed, has an entry for it, or has the dimension's default |
| `DimensionRoundTrip.SeenAgain` | algopt/rebalancer/entities/ObjectValueTypes.cpp:84-99 | A rebuilt item shows the same values except the default, which is observed anyway |
| `DimensionRoundTrip.GroupsKeepEverything` | algopt/rebalancer/entities/ObjectDynamicDimension.cpp:68-114 | A dimension built from group values, serialized and read again, gives every object at every scope item the value the caller gave its group, and the default to objects of no group; refused exactly as the construction is |
| `DimensionRoundTrip.OwnDefaultIsLost` | algopt/rebalancer/entities/ObjectDynamicDimension.cpp:39-66 | An object map with a default of its own, which the round trip replaces by the dimension's |
| `AccessOrderedRuns.FairRun` | algopt/rebalancer/algopt_common/AccessOrderedFastSet.h:30-40 | In every run of inserts, erases and partial iterations, of two elements that stay in the set the one that is due later does not come up before the other |
| `AccessOrderedRuns.FairSortedRun` | algopt/rebalancer/algopt_common/AccessOrderedSortedSet.h:33-44 | Between insertions the sorted set is fair in the same way, for elements no call takes out |
| `AccessOrderedRuns.Run` | algopt/rebalancer/algopt_common/AccessOrderedSetBase.h:56-84 | Every run of calls visits the trace of its queue events |
| `CircularQueue.NoRevisitBeforeAll` | algopt/rebalancer/algopt_common/AccessOrderedFastSet.h:30-40 | After an iteration stopped having just passed an element, no later one comes to it again before every other surviving element |
| `CircularQueue.Fair` | algopt/rebalancer/algopt_common/AccessOrderedFastSet.h:30-40 | An element behind another stays behind it until the other has come up, whatever is added or removed between |
| `CircularQueue.PassSplits` | algopt/rebalancer/algopt_common/AccessOrderedSetBase.h:198-209 | An iteration can be cut after any element, so the above holds of every element an iteration passes |
| `AccessOrderedSets.AccessOrderedSetBase.Iterate` | algopt/rebalancer/algopt_common/AccessOrderedSetBase.h:186-209 | An iteration yields the next elements in circular order, and those it did not pass come first next time |
| `AccessOrderedSets.AccessOrderedSetBase.IterateUntilBreak` | algopt/rebalancer/algopt_common/AccessOrderedSetBase.h:186-213 | A loop that breaks at an element has read it but not passed it: it comes first next time |
| `AccessOrderedSets.AccessOrderedSetBase.Walk` | algopt/rebalancer/algopt_common/AccessOrderedSetBase.h:198-213 | Dereferencing and incrementing runs through the circular order |
| `AccessOrderedSets.AccessOrderedSetBase.FullIteration` | algopt/rebalancer/algopt_common/AccessOrderedSetBase.h:77-84 | A full iteration yields every element exactly once |
| `AccessOrderedSets.AccessOrderedSetBase.Erase` | algopt/rebalancer/algopt_common/AccessOrderedSetBase.h:60-71 | The resume position stays on a live element, and the upcoming order only loses the erased one |
| `AccessOrderedSets.EraseUpcoming` | algopt/rebalancer/algopt_common/AccessOrderedSetBase.h:103-121 | The position chosen before the erase is the one that keeps the upcoming order |
| `AccessOrderedSets.AccessOrderedSetBase.SetCurrIterToBegin` | algopt/rebalancer/algopt_common/AccessOrderedSetBase.h:153-157 | The upcoming order becomes the container's |
| `AccessOrderedSets.AccessOrderedFastSet.Insert` | algopt/rebalancer/algopt_common/AccessOrderedFastSet.h:87-102 | Keeps insertion order and the element index; the upcoming order only gains the new element |
| `AccessOrderedSets.AccessOrderedFastSet.Erase` | algopt/rebalancer/algopt_common/AccessOrderedFastSet.h:104-108 | List and element index lose the element together |
| `AccessOrderedSets.AccessOrderedFastSet.Contains` | algopt/rebalancer/algopt_common/AccessOrderedFastSet.h:110-112 | Membership in the list |
| `AccessOrderedSets.AccessOrderedSortedSet.Insert` | algopt/rebalancer/algopt_common/AccessOrderedSortedSet.h:87-93 | Adds the element in order unless an equivalent one is stored, and restarts from the beginning |
| `AccessOrderedSets.AccessOrderedSortedSet.Erase` | algopt/rebalancer/algopt_common/AccessOrderedSortedSet.h:95-98 | Loses exactly the equivalent element, if any |
| `RegexLanguage.TextMatchesExactly` | algopt/rebalancer/common/utils.py:350-405 | For plain strings of one length, where no wildcard is used the written expression matches exactly the input strings; without a limit on choices that is always so |
| `RegexLanguage.TextMatchesInputs` | algopt/rebalancer/common/utils.py:353-367 | For one limit on choices, every input is matched exactly when no wildcard has to stand for a newline |
| `RegexLanguage.InputsAlwaysMatch` | algopt/rebalancer/common/utils.py:353-392 | Every input is matched, whatever the limit on choices, exactly when wildcards match newlines or the inputs have their newlines in the same places |
| `RegexLanguage.TextMatchesOneLength` | algopt/rebalancer/common/utils.py:371-374 | Only strings of the inputs' length are matched |
| `RegexLanguage.NewlineIsLost` | algopt/rebalancer/common/utils.py:386-392 | An input list on which an input is not matched |
| `RegexLanguage.TextMatch` | algopt/rebalancer/common/utils.py:401-405 | The text, read back as a regular expression, matches what the recursion accepts |
| `RegexSyntax.WriteRead` | algopt/rebalancer/common/utils.py:369-405 | Reading the written text gives the expression back, literal dots and wildcards kept apart |
| `RegexCompiler.MakePlan` | algopt/rebalancer/common/utils.py:371-399 | The recursion ends, keeps the inputs at every level, cuts common prefix and suffix off all of them, and takes no wildcard without a limit |
| `RegexCompiler.MiddleIsLeft` | algopt/rebalancer/common/utils.py:379-380 | For unequal strings of one length prefix and suffix never meet, so the internal check never fails |
| `Grouping.GroupPairsMeaning` | algopt/rebalancer/common/utils.py:222-228 | Every key once, ascending, with the values of its pairs in their original order |
| `Operators.OperatorsMeanArithmetic` | algopt/lp/generic/Operators.cpp:21-137 | Under every assignment any expression built with the operators has the value of the arithmetic written, up to an explicit error made of the constants that the shortcuts drop |
| `Operators.CleanIsExact` | algopt/lp/generic/Operators.cpp:45-89 | Without constants that are close to zero or one but not equal to it, the value is exact |
| `Operators.Dropped` | algopt/rebalancer/algopt_common/Precision.cpp:21-35 | A dropped summand is below the tolerance, and exactly those are; a dropped factor is within 2e/(2-e) of one |
| `Operators.BuildExpression` | algopt/lp/generic/Operators.cpp:21-101 | Building with objects gives the same linear form whichever representation each operand uses, in new objects, and fails exactly for products of two expressions with variables |
| `Operators.PlusReal` | algopt/lp/generic/Operators.cpp:45-53 | A new expression; a constant close to zero is dropped |
| `Operators.TimesReal` | algopt/lp/generic/Operators.cpp:81-89 | A new expression; a factor close to one is dropped |
| `Operators.MinusExpression` | algopt/lp/generic/Operators.cpp:71-75 | The first plus the negated second, in a new expression |
| `LinearForms.EvalPlus` | algopt/lp/fast/FastExpressionImpl.cpp:40-46 | Merging term maps adds the values |
| `LinearForms.EvalScale` | algopt/lp/fast/FastExpressionImpl.cpp:48-53 | Multiplying all coefficients multiplies the value |
| `LinearForms.EvalTimes` | algopt/lp/fast/FastExpressionImpl.cpp:55-75 | Where one factor has no variables the product form has the product value |
| `Expressions.FastExpressionImpl.Add` | algopt/lp/fast/FastExpressionImpl.cpp:40-46 | The sum of the forms, also when an expression is added to itself |
| `Expressions.FastExpressionImpl.MultiplyConstant` | algopt/lp/fast/FastExpressionImpl.cpp:48-53 | Every coefficient and the constant are multiplied |
| `Expressions.FastExpressionImpl.Multiply` | algopt/lp/fast/FastExpressionImpl.cpp:55-75 | The product form, or refused exactly when both have variables, then unchanged |
| `Expressions.FastExpressionImpl.Clone` | algopt/lp/fast/FastExpressionImpl.cpp:30-34 | An equal form in a new object |
| `Expressions.Expression.Add` | algopt/lp/generic/Expression.cpp:83-98 | The sum of the forms in all four combinations of representations; terms are never shared with the operand |
| `Expressions.Expression.Multiply` | algopt/lp/generic/Expression.cpp:108-123 | The product of the forms in all four combinations |
| `Expressions.Expression.Copy` | algopt/lp/generic/Expression.cpp:34-37 | An equal form that shares no terms with the original |
| `Expressions.Expression.Assign` | algopt/lp/generic/Expression.cpp:39-47 | Takes over the form in a new object; the original is untouched |
| `Expressions.Expression.MoveAssign` | algopt/lp/generic/Expression.cpp:49-57 | Takes over the form by sharing the terms with the moved-from expression |
| `Precision.CompareSwaps` | algopt/rebalancer/algopt_common/Precision.cpp:21-35 | Swapping the arguments negates the result |
| `Precision.NearZero` | algopt/rebalancer/algopt_common/Precision.cpp:21-35 | Beside zero only the absolute tolerance counts |
| `Precision.NearOne` | algopt/rebalancer/algopt_common/Precision.cpp:21-35 | Equality with one bounds the distance in terms of the tolerance |
| `Relations.MakeRelation` | algopt/lp/generic/Expression.cpp:125-138 | In either representation the relation holds exactly when the expression's value does |
| `Relations.CompareReal` | algopt/lp/generic/Operators.cpp:147-153 | Holds exactly when the expression relates to the constant, a constant close to zero counting as zero |
| `Relations.RealCompare` | algopt/lp/generic/Operators.cpp:161-167 | The same with the constant on the left, where the sides change places for constants close to zero |
| `Relations.CompareExpression` | algopt/lp/generic/Operators.cpp:177-181 | Holds exactly when the values are so related |
| `Relations.UsedIsClose` | algopt/lp/generic/Operators.cpp:139-145 | The constant used differs from the one written by less than the tolerance |
| `Relations.RowIsRelation` | algopt/lp/fast/FastProblemImpl.cpp:97-104 | A constraint row holds exactly when its relation does |
| `Relations.FastProblemImpl.NewConstraint` | algopt/lp/fast/FastProblemImpl.cpp:94-112 | A point is feasible afterwards exactly when it was before and satisfies the relation |
| `Relations.FastProblemImpl.DeleteConstraint` | algopt/lp/fast/FastProblemImpl.cpp:114-123 | Only marks the row; ids of other rows stay valid |
| `Relations.FastProblemImpl.FeasibleMeans` | algopt/lp/fast/FastProblemImpl.cpp:94-123 | After any calls a point is feasible exactly when it satisfies every relation added and not deleted |
| `Relations.FastProblemImpl.BuildSortedConstrIds` | algopt/lp/fast/FastProblemImpl.cpp:280-296 | The ids of the rows not deleted, each once, by name and then by id |
| `Relations.FastProblemImpl.BuildSortedVarIds` | algopt/lp/fast/FastProblemImpl.cpp:264-278 | All variable ids, each once, by name and then by id |
| `Relations.OrderIsDeterministic` | algopt/lp/fast/FastProblemImpl.h:96-102 | All problems with the same live rows, added in any order and with any other rows deleted, list them in the same order exactly when live rows with the same name are the same |
| `Relations.VariableOrder` | algopt/lp/fast/FastProblemImpl.h:96-98 | Variables made in any order, repeated names included, are listed by the same names in the same order |
| `Relations.FastProblemImpl.MakeVar` | algopt/lp/fast/FastProblemImpl.cpp:33-60 | Ids count up and variables made before keep theirs |

## Left out

- Copying an `IncrementalPriorityQueueV2`: the copy constructor and the rebuilding of its location index are not modelled.
- Assignment of `AccessOrderedFastSet` and `AccessOrderedSortedSet`, and copies of their iterators: a copied iterator forgets that it was incremented, and an assigned fast set keeps old index entries.
- The element count of a dense `CompressedIdMap` and all sizes and ids are unbounded numbers; only the subtraction in `GroupBacked::sum` is modelled with 64-bit wrap-around.
- Floating-point rounding, infinities and not-a-number values, except for the quotient 0/0 in `Precision`.
- Hardware memory ordering: atomic steps and lock sections are sequentially consistent.
- Executors and coroutines: only the batch arithmetic and an arbitrary completion order of the combining steps are modelled.
- Solver backends, wall-clock time, names of pinned constraints and the fingerprint and coefficient-ratio reports of `Problem`.
- Variable bounds, types, start values and parameters of `FastProblemImpl`; the mutexes around its vectors.
- `isSet`-like one-line getters of the modelled classes, `any`, `size` and `empty`, which would only add easy members.
- Flags of regular expressions other than dot-matches-newline, and the escaping of other metacharacters, which the code does not do.
- SegmentTree.AssociativeVector.Update: requires a non-empty vector, because the program recurses without end on an empty one.
- SegmentTree.AssociativeVector.Query: on an empty vector the model answers the neutral element; the program reads outside its array when the range contains zero in its interior.
- AtomicUnion.EveryInterleaving: the merged-in bit sets do not change during the calls, as the class comment demands of its callers.
- RegexLanguage.TextMatchesExactly: states the language for the default backslash; other values of that parameter prepare the text for embedding elsewhere.
- Operators.BuildExpression: covers the operators that return new expressions; the compound assignments are the methods of Expression.
