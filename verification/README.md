# Search, clustering and auto-tuning in Faiss: a verified model

This project models the parts of Faiss that decide what to compute, in which order and with which
bookkeeping, and proves what they promise. Distances, times and masses are real numbers; quantizers,
random draws, sorting routines and the scores found in a list are parameters, so that every
statement holds for all of them.

- **Auto-tuning** (`OperatingPoints`, `FrontierContents`, `ParameterSpace`, `Pruning`, `Shuffles`, `Explore`).
  The pruned frontier answers every query like the complete list of measurements, and what it stores is
  known exactly. Skipping combinations is lossless exactly when those that it cannot miss dominate the
  others, as with monotone measurements.
- **Batch search** (`TopK`, `HeapOrder`, `HeapResults`, `Heap`, `ResultHeap`, `Bags`, `BigBatch`, `BatchFinals`,
  `BatchProtocol`, `BatchRuns`, `BatchResume`). Binary heaps in place keep the best results with their
  identifiers, and come out sorted. Going through the inverted lists one by one gives each query what visiting
  its own lists would, and nothing better is left out. The threaded execution is a state machine over queues,
  workers, the main thread and the checkpoint on disk: no deadlock, bounded runs, each list merged once, what is
  saved never computed again, and the sequential result after any number of crashes.
- **K-means** (`Centroids`, `SplitClusters`, `Lloyd`, `Training`). Means accumulated by threads in any
  schedule, refilling of empty clusters, conservation of mass and barycentre, and descent.
- **Two-level codes** (`TwoLayer`). In-place widening of a batch of codes, block by block or not, and
  reading back.
- **Range search with a shrinking radius** (`RangeSearch`). The bounded table is always an exact search.
- **Sliding window** (`InvertedLists`, `SlidingWindow`). A window over inverted lists is a queue of slices.
- **Python helpers** (`Allocation`, `Assignment`, `Reassign`, `PrecisionRecall`, `RangeEvaluation`).
  Shares of sub-clusters, assignment in blocks, refilling by draws with replacement, and tables of
  precision and recall in one pass.

`Basics`, `Sums` and `Sorting` hold the shared vocabulary. `dafny verify dfyconfig.toml` checks everything.

Some promises do not hold of the code as it is; the model keeps the code and states exactly when they
hold, with an input that breaks them:

- lossless skipping: iff combinations that are only skipped when covered dominate the others
  (`EnoughIffLossless`, `PruningNeedsMonotonicity`);
- a stored frontier that does not depend on the order of the measurements: iff there are no ties
  (`OrderShowsIff`, `FrontierDependsOnOrder`);
- a stored frontier of optimal points only: iff no stored point was outdone at the same time
  (`StoredIsOptimalIff`, `OutdoneIsStored`);
- refilling of empty clusters: iff the masses allow as many splits as there are empty clusters
  (`SplitClusters`, `UpdateCentroids`), which frozen centroids or small weights can prevent
  (`FrozenCanGetStuck`, `WeightedCanGetStuck`, `UpdatesThatFail`);
- no empty cluster after draws with replacement: iff no pass draws a cluster too often
  (`ReassignCentroids`, `EmptyClusterMayRemain`), which for all draws of a single pass is a condition on the
  sizes (`EveryRunFillsIff`) that does not carry over to several passes (`SeveralPassesMayLose`);
- a bounded range search that does not fail: iff no total falls between the limits in the wrong order
  (`RangeSearchMaxResults`, `ThreeGetStuck`);
- a one-pass table of precision and recall that agrees with its definition: iff no correct identifier
  is repeated (`OnePassAgreesIff`, `RepeatCountsTwice`).

With weights, the objective that k-means reports ignores them and can rise without splits
(`ReportedMayRise`); the weighted one does not (`TrailDescends`).

## Model

| member | source | states |
|---|---|---|
| OperatingPoints.OperatingPoints.constructor | faiss/AutoTune.cpp:93-103 | a new record holds no measurement and its frontier is the origin alone |
| OperatingPoints.OperatingPoints.Clear | faiss/AutoTune.cpp:97-103 | forgets every measurement and keeps the origin, which does nothing in no time |
| OperatingPoints.OperatingPoints.Add | faiss/AutoTune.cpp:106-152 | records the point; keeps it on the frontier, and returns true, iff its performance is above 0 and no recorded point is as good and as fast; of the stored points it removes exactly the less accurate ones that are strictly slower; the frontier stays sorted and covers all recorded points |
| OperatingPoints.OperatingPoints.Place | faiss/AutoTune.cpp:116-144 | finds where the performance belongs; gives up exactly when the point found there is at least as good |
| OperatingPoints.OperatingPoints.RemoveSlower | faiss/AutoTune.cpp:145-150 | the backward pass removes exactly the less accurate points that are strictly slower than the new one |
| OperatingPoints.OperatingPoints.TForPerf | faiss/AutoTune.cpp:168-183 | the least time among all recorded points and the origin that reach the performance, and 1e50 when there is none; when all times are below 1e50, only then |
| OperatingPoints.Search | faiss/AutoTune.cpp:168-183 | the binary search over a frontier finds the least time that reaches the performance |
| OperatingPoints.UndominatedMeans | faiss/AutoTune.cpp:106-152 | a point arrives undominated iff it is more accurate or faster than each point recorded before and the origin |
| OperatingPoints.OperatingPoints.MergeWith | faiss/AutoTune.cpp:154-165 | records all points of a distinct record with prefixed keys; the count is that of the points undominated when their turn came |
| OperatingPoints.RefinedIsCut | faiss/AutoTune.cpp:127-150 | what an insertion leaves of a sorted frontier: the less accurate points that are no slower, the new point, the more accurate ones |
| OperatingPoints.CutIsFrontier | faiss/AutoTune.cpp:116-151 | inserting an undominated point and dropping the slower ones gives a frontier of the larger set of points |
| OperatingPoints.FrontierAnswers | faiss/AutoTune.cpp:168-183 | any frontier of a set of points answers every query as the whole set does |
| OperatingPoints.SlotIsUseful | faiss/AutoTune.cpp:116-144 | a point that finds a slot is dominated by no recorded point |
| OperatingPoints.MergedAnswers | faiss/AutoTune.cpp:154-165 | after a merge every query gets the better of the two original answers |
| OperatingPoints.OrderIrrelevant | faiss/AutoTune.cpp:106-152 | query answers depend on the multiset of points added, not on their order |
| FrontierContents.StoredIff | faiss/AutoTune.cpp:97-152 | exactly what is stored after any history: the points that arrived undominated and that nothing recorded, before or after, beats by being at least as accurate and strictly faster |
| FrontierContents.StoredMeans | faiss/AutoTune.cpp:97-152 | the same in terms of performances, times and places in the history alone |
| FrontierContents.OrderShowsIff | faiss/AutoTune.cpp:106-152 | every order of the same points stores the same frontier iff no two different points tie: same time, one no less accurate, the other one above 0 and unbeaten; ties in both values count too |
| FrontierContents.StoredIsOptimalIff | faiss/AutoTune.cpp:106-152 | every stored point is optimal iff no unbeaten point that arrived undominated, the origin included, was followed by a more accurate one of the same time |
| FrontierContents.OptimalIsStored | faiss/AutoTune.cpp:106-152 | every optimal point is stored, or another one with the same performance and time |
| FrontierContents.OutdoneIsStored | faiss/AutoTune.cpp:142-150 | an instance: of two points of equal time the less accurate one is stored if it comes first, although it is not optimal, and not if it comes second |
| OperatingPoints.FrontierDependsOnOrder | faiss/AutoTune.cpp:145-149 | an instance: two points of equal time, and what either order stores and returns |
| ParameterSpace.ParameterSpace.NCombinations | faiss/AutoTune.cpp:268-274 | the number of tuples of digits |
| ParameterSpace.DigitAt | faiss/AutoTune.cpp:412-420 | digit i of a combination is its number divided by the product of the ranges before parameter i, modulo the range of parameter i |
| ParameterSpace.ParameterSpace.CombinationGe | faiss/AutoTune.cpp:297-309 | compares two combinations digit by digit, as tuples |
| ParameterSpace.ParameterSpace.IndexParameters | faiss/AutoTune.cpp:412-420 | each parameter in turn is set to the value that its digit selects |
| ParameterSpace.DigitsOfNumber | faiss/AutoTune.cpp:268-309 | every tuple is the digits of one number below the number of combinations |
| ParameterSpace.NumberOfDigits | faiss/AutoTune.cpp:268-309 | every number below the number of combinations is given by its digits: with the previous row, a bijection |
| ParameterSpace.AtLeastIsPartialOrder | faiss/AutoTune.cpp:297-309 | reflexive, transitive, antisymmetric, and included in the numeric order |
| ParameterSpace.BottomAndTop | faiss/AutoTune.cpp:297-309 | 0 is below and the last combination is above every combination |
| ParameterSpace.EmptyRangeEmptySpace | faiss/AutoTune.cpp:268-274 | there is a combination iff no parameter lacks values |
| Explore.UpdateBounds | faiss/AutoTune.cpp:594-609 | each bound moves exactly when the comparison in the tuple order and the measurement say so |
| Explore.CanSkip | faiss/AutoTune.cpp:677-697 | skips iff some recorded point reaches the performance bound within the time bound |
| Pruning.BoundsHold | faiss/AutoTune.cpp:594-609 | under monotone measurements, running a combination would reach no more than the performance bound and take no less than the time bound |
| Pruning.SkipsMeans | faiss/AutoTune.cpp:594-609 | when a combination is skipped, in raw terms: the origin or a recorded point is at least as accurate as the worst recorded point above the combination, and as fast as the slowest recorded point below it |
| Pruning.MonotoneIsSafe | faiss/AutoTune.cpp:677-697 | monotone measurements make skipping safe: whatever makes any combination skippable covers it |
| Pruning.SafeIffHarmless | faiss/AutoTune.cpp:677-697 | skipping is safe iff no record of genuine measurements makes it skip a combination that nothing recorded dominates |
| Pruning.EnoughIffLossless | faiss/AutoTune.cpp:666-757 | for each order of combinations: exploring it answers every query, from every genuine record, as measuring all of it does, iff those of its combinations that can only be skipped when covered, or the origin, dominate all of them |
| Pruning.SafeIffAlwaysEnough | faiss/AutoTune.cpp:666-757 | measurements are safe iff that condition holds for all sequences of combinations, those included that no exploration goes through; orders of an exploration need less |
| Pruning.SkippedIsDominated | faiss/AutoTune.cpp:677-697 | a combination that can only be skipped when covered would, once skipped, only have measured a dominated point |
| Pruning.PrunedCovers | faiss/AutoTune.cpp:666-757 | every such combination gone through is dominated by a recorded point |
| Pruning.LosslessPruning | faiss/AutoTune.cpp:666-757 | under that condition, for every order, every starting record and every query: the same answer with skipping as without |
| Pruning.PruningMatchesExhaustive | faiss/AutoTune.cpp:622-757 | under that condition, skipping through a permutation of all combinations answers every query as the exhaustive branch does |
| Pruning.PruningNeedsMonotonicity | faiss/AutoTune.cpp:622-757 | an instance in which skipping loses the answer: a parameter with three values whose best setting is never measured |
| Shuffles.RandPerm | faiss/utils/random.cpp:188-199 | the places offered are filled with the order that the draws determine |
| Shuffles.ShuffledIsPermutation | faiss/utils/random.cpp:188-199 | every sequence of draws gives a permutation |
| Shuffles.EveryOrderIsDrawn | faiss/utils/random.cpp:188-199 | every permutation is given by draws within the range of each place |
| Shuffles.OnlyTheseDraws | faiss/utils/random.cpp:188-199 | two sequences of such draws that give the same permutation are equal: each order is drawn in exactly one way |
| Explore.TrialOrder | faiss/AutoTune.cpp:655-664 | a permutation that starts with the fastest and the most accurate combination |
| Explore.DrawnOrder | faiss/AutoTune.cpp:655-664 | first combination 0, then the last one, then the others in the shuffled order |
| Explore.DrawnIsPermutation | faiss/AutoTune.cpp:655-664 | this order has every combination once, whatever is drawn |
| Explore.ExploreInOrder | faiss/AutoTune.cpp:666-757 | goes through as many combinations of that order as the setting says, all of them when it is negative or above their number |
| Explore.ExploreAll | faiss/AutoTune.cpp:622-647 | records one measurement of every combination, in order |
| Explore.ExplorePruned | faiss/AutoTune.cpp:666-757 | records exactly the measurements of the combinations that are not skipped |
| Explore.TryOne | faiss/AutoTune.cpp:677-756 | measures a combination unless it can be skipped |
| Explore.Explore | faiss/AutoTune.cpp:611-757 | error iff the criterion does not fit or the budget is too small for the space; under the exact condition for its order, every query is answered as if all the combinations gone through had been measured, and with a full budget as after the exhaustive exploration; a negative budget counts as unlimited because of the unsigned comparison |
| TopK.TopKUnique | faiss/utils/Heap.cpp:87-113 | the k best of a bag of scores are one sequence only |
| TopK.MergeAbsorbs | contrib/big_batch_search.py:142-152 | selecting the k best before merging in more scores loses nothing |
| HeapOrder.TopIsWorst | faiss/utils/Heap.h:47-151 | the top of a heap is its worst result |
| HeapOrder.StepDown | faiss/utils/Heap.h:134-147 | moving the worse child up keeps the heap order everywhere but at the place it leaves |
| HeapOrder.DownKeepsHeap | faiss/utils/Heap.h:113-151 | what takes the place of the top moves down until the rest is a heap again, which holds the same results with that one instead of the top |
| Heap.SiftDown | faiss/utils/Heap.h:113-151 | in the two matrices, exactly this happens to one row, and no other row changes |
| Heap.Pop | faiss/utils/Heap.h:47-78 | the same with the last result of the heap, which stays in its last place as well |
| HeapResults.PoppedIsHeap | faiss/utils/Heap.h:47-78 | after popping, the places before the last one are a heap and the places behind it are as before |
| HeapResults.PoppedLosesTop | faiss/utils/Heap.h:47-78 | this heap holds the results from before without the top |
| HeapResults.OfferedKeeps | faiss/utils/Heap.cpp:106-111 | a heap that is offered a result stays one, and holds only what it had and that result |
| HeapResults.OfferedMeans | faiss/utils/Heap.cpp:106-111 | a result takes the place of the top exactly when the top is free or strictly worse; otherwise nothing changes |
| HeapResults.OfferedIsBest | faiss/utils/Heap.cpp:106-111 | comparing with the top and replacing it keeps the k best of all scores offered |
| HeapResults.OfferedAllIsBest | faiss/utils/Heap.cpp:100-111 | so does offering a line of results |
| Heap.AddLine | faiss/utils/Heap.cpp:100-111 | a line of results is offered to one heap, in order, and no other heap changes |
| Heap.AddSubset | faiss/utils/Heap.cpp:87-113 | each heap is offered the lines for its query, in order, repeated queries included |
| HeapResults.TakeTop | faiss/utils/Heap.h:427-446 | taking the top of a heap puts it in front of the sorted results, unless it has the identifier -1 |
| Heap.Reorder | faiss/utils/Heap.h:427-457 | sorts one row in place by popping: results with an identifier in the order in which they go to the end, then free places |
| HeapResults.SortedHeapIsReordered | faiss/utils/Heap.h:427-457 | this leaves exactly the results whose identifier is not -1, no result after a worse one, and free places behind |
| HeapResults.ReorderedShowsBest | faiss/utils/Heap.h:427-457 | a sorted heap shows the k best scores in order, if no result has the identifier -1 |
| ResultHeap.ResultHeap.constructor | faiss/python/extra_wrappers.py:223-241 | all heaps are free |
| ResultHeap.ResultHeap.AddResultSubset | faiss/python/extra_wrappers.py:258-277 | each heap is offered the lines for its query, with identifiers shared by all lines or one for each distance |
| ResultHeap.ResultHeap.Finalize | faiss/python/extra_wrappers.py:279-280 | all heaps are sorted |
| BigBatch.BigBatchSearcher.ReorderAssign | contrib/big_batch_search.py:101-112 | each query is listed in a bucket as often as it probes the list, and the -1s are gone; fails iff there are not more probes than buckets, as the sorting routine demands |
| BigBatch.BigBatchSearcher.PrepareBucket | contrib/big_batch_search.py:114-140 | every query occurs in the bucket exactly as often as its coarse assignment probes the list, and nothing else occurs |
| BigBatch.BigBatchSearcher.Identify | contrib/big_batch_search.py:146-149 | the identifiers that go with the distances found: those of the list, or those at the positions found |
| BigBatch.BigBatchSearcher.AddResultsToHeap | contrib/big_batch_search.py:142-152 | from the heaps of the lists added so far to those of these and one more |
| BigBatch.HeapAfterIsBest | contrib/big_batch_search.py:142-152 | the heap of a query after any lists holds the k best scores of what they offer it, each with an identifier found with it |
| BigBatch.BigBatchSearcher.SearchSequential | contrib/big_batch_search.py:338-347 | adds the lists in order and leaves the heaps of them all |
| BigBatch.BigBatchSearcher.AddResultsAndPrefetch | contrib/big_batch_search.py:353-359 | adds the previous list, if any, and prepares the next one, if any |
| BigBatch.BigBatchSearcher.SearchPrefetching | contrib/big_batch_search.py:349-379 | the same additions in the same order as the sequential execution; fails iff the range of lists is empty |
| BigBatch.BucketFindings | contrib/big_batch_search.py:216-231 | the block search over a bucket offers each query what it finds in the list, once per probe |
| BigBatch.BigBatchSearcher.Finish | contrib/big_batch_search.py:511-515 | sorts the heaps |
| BigBatch.FinalResults | contrib/big_batch_search.py:511-515 | the final results of a query, if no list has the identifier -1: the k best scores in order, each with an identifier found with it, then free places |
| BatchFinals.FinalIsHit | contrib/big_batch_search.py:142-152 | every final result is a distance of the block search in a list that the query probes, with the identifier of that list at its index, or at its position, which counts from the end when negative |
| BatchFinals.HitIsFinal | contrib/big_batch_search.py:142-152 | every such hit in a list added is among the final results, unless there are k of them and none is worse |
| BatchFinals.FinalOrder | contrib/big_batch_search.py:511-515 | the closest results come first, among equals the smaller identifiers; the most similar ones first, among equals the larger identifiers |
| BigBatch.SearchIsExact | contrib/big_batch_search.py:338-515 | after all lists these are, score by score, those of visiting the probed lists one at a time |
| BigBatch.LoopInterchange | contrib/big_batch_search.py:338-347 | going through all lists gives each query the scores that it would get from visiting its probed lists one at a time, -1 probes ignored |
| BigBatch.SearchMethodsAgree | contrib/big_batch_search.py:216-231 | reporting all scores of a list or only its k best makes no difference to any heap |
| Bags.TotalPermuted | contrib/big_batch_search.py:485-506 | what a query collects does not depend on the order of the lists |
| BatchProtocol.StepKeeps | contrib/big_batch_search.py:382-509 | each step of the task managers, the pools, the workers and the main thread keeps the invariant, for all thread counts |
| BatchProtocol.StepConserves | contrib/big_batch_search.py:382-509 | each bucket submitted or restored is either on its way or merged, exactly once, and no other bucket is |
| BatchProtocol.ReadIsHarmless | contrib/big_batch_search.py:393-397 | a bucket that the submission loop is looking at is completed iff the checkpoint said so, although the main thread adds to the set meanwhile |
| BatchProtocol.CheckpointIsSound | contrib/big_batch_search.py:157-167 | what is written holds the best of exactly the lists called completed, each merged once |
| BatchRuns.NoDeadlock | contrib/big_batch_search.py:382-509 | in every state that satisfies the invariant some thread can move until the main thread returns |
| BatchRuns.StepDecreases | contrib/big_batch_search.py:382-509 | every step lowers a measure |
| BatchProtocol.StartKeeps | contrib/big_batch_search.py:328-336 | starting afresh or from a sound checkpoint establishes the invariant |
| BatchResume.RestartResumes | contrib/big_batch_search.py:328-336 | a restart begins with the completed lists and the heaps on disk when there is a checkpoint and checkpointing is on, and with nothing otherwise; queues and workers are empty |
| BatchResume.CompletedIsDone | contrib/big_batch_search.py:393-397 | a completed list is merged, and is in no queue, pool or thread |
| BatchResume.CanSave | contrib/big_batch_search.py:485-506 | after each list a checkpoint can be saved, which leaves the completed lists and heaps of that moment on disk, or skipped |
| BatchResume.DiskIsPresent | contrib/big_batch_search.py:157-167 | the file on disk changes only at the end of a save, to the completed lists and heaps of that moment |
| BatchResume.SavedStaysCompleted | contrib/big_batch_search.py:328-336 | a list that is on disk as completed is so in every later state, whatever crashes follow |
| BatchResume.SavedIsNeverComputedAgain | contrib/big_batch_search.py:393-397 | and it is never submitted, prepared, computed or merged again |
| BatchResume.CheckpointMeans | contrib/big_batch_search.py:154-175 | the file on disk names lists of the search, each merged once, with the best scores of each query in them |
| BatchResume.RoomIsUsed | contrib/big_batch_search.py:382-484 | as long as there is room, the next bucket goes on to a preparing thread, to the workers, and to the main thread |
| BatchResume.BoundsHold | contrib/big_batch_search.py:382-484 | neither queue ever holds more than two items, and no pool more than its threads |
| BatchRuns.RunKeeps | contrib/big_batch_search.py:328-509 | every state of every run satisfies the invariant, crashes and restarts included |
| BatchRuns.RunsGrow | contrib/big_batch_search.py:328-509 | a run begins from scratch, and can go on with every step that is possible and with a crash and a restart from the file on disk |
| BatchRuns.RunsAreNeverStuck | contrib/big_batch_search.py:382-509 | after any number of crashes and restarts, some step of some thread is possible until the search returns |
| BatchRuns.RunsEnd | contrib/big_batch_search.py:382-509 | between two crashes the number of steps is bounded by the measure |
| BatchRuns.AttemptsEnd | contrib/big_batch_search.py:382-509 | between two crashes there are at most ten steps for each list of the range, two for each worker and five more |
| BatchRuns.SentinelIsLast | contrib/big_batch_search.py:485-509 | when the end marker has reached the main thread, nothing is under way and every list has been merged exactly once |
| BatchRuns.EveryRunGivesTheSequentialResult | contrib/big_batch_search.py:328-509 | every run that returns has merged each list once and leaves the heaps of the sequential execution |
| BatchRuns.CheckpointsAreSound | contrib/big_batch_search.py:154-175 | at every moment of every run the checkpoint on disk is the merge of exactly its completed lists |
| BatchRuns.EveryRunSearchesCorrectly | contrib/big_batch_search.py:234-515 | all of it together: each query ends with the best scores of its probed lists, whatever the interleaving and the crashes |
| Centroids.CutsTile | faiss/Clustering.cpp:156-161 | for every number of threads the slices cover the centroids in order and without overlap |
| Centroids.OwnerExists | faiss/Clustering.cpp:156-161 | every centroid belongs to the slice of some thread |
| Centroids.OwnerUnique | faiss/Clustering.cpp:156-161 | and to that of no other |
| Centroids.AccumulateInThreads | faiss/Clustering.cpp:154-192 | under every schedule the masses and sums are those of adding the points up in order; frozen centroids are untouched |
| Centroids.ThreadStep | faiss/Clustering.cpp:164-190 | a thread adds its point to a centroid of its own slice or to none |
| Centroids.ComputeCentroids | faiss/Clustering.cpp:136-205 | every centroid that is not frozen becomes the weighted mean of its points, or zero without any, and its mass their weight |
| SplitClusters.PickableIff | faiss/Clustering.cpp:233-240 | some draw picks a cluster iff it holds more than one point |
| SplitClusters.SplitMeans | faiss/Clustering.cpp:241-258 | a split shares the mass evenly and moves the two copies of the centroid by 1/1024 of each coordinate in opposite, alternating directions; no other cluster changes |
| SplitClusters.EmptyAre | faiss/Clustering.cpp:230-231 | the clusters to refill are those without mass, in increasing order |
| SplitClusters.SplitKeepsMass | faiss/Clustering.cpp:256-258 | a split leaves the total mass as it is |
| SplitClusters.SplitKeepsBarycentre | faiss/Clustering.cpp:241-258 | a split leaves the sum of mass times centroid as it is |
| SplitClusters.SplitAllKeepsMass | faiss/Clustering.cpp:230-261 | so does a series of splits, for the mass |
| SplitClusters.SplitAllKeepsBarycentre | faiss/Clustering.cpp:230-261 | and for the barycentre |
| SplitClusters.CandidateExists | faiss/Clustering.cpp:230-240 | with more mass than clusters, some cluster holds more than one point |
| SplitClusters.CapIsPower | faiss/Clustering.cpp:230-261 | a cluster of mass m above 1 and its halves allow one split less than the next power of two from m |
| SplitClusters.SplitUsesOne | faiss/Clustering.cpp:241-258 | whichever cluster is split, exactly one split fewer is allowed afterwards |
| SplitClusters.EnoughMass | faiss/Clustering.cpp:230-261 | as much mass as clusters allows all the splits needed, however it is spread |
| SplitClusters.SplitClusters | faiss/Clustering.cpp:217-264 | succeeds, whatever is drawn, iff the input masses allow as many splits as there are empty clusters; then exactly the empty clusters are refilled, each by halving one of more than one point, frozen centroids are untouched and no cluster is empty; otherwise the search for a cluster to split would never end |
| Lloyd.MassesAddUp | faiss/Clustering.cpp:156-192 | the masses of the clusters sum to the weight of the points they take |
| Lloyd.MomentsAddUp | faiss/Clustering.cpp:156-192 | mass times centroid summed over the clusters is the sum of these points |
| Lloyd.MassIs | faiss/Clustering.cpp:156-192 | a mass adds up the weights of the points of its cluster, or counts them without weights |
| Lloyd.CenterIs | faiss/Clustering.cpp:194-204 | centre times mass is the weighted sum of the points, in each coordinate |
| Lloyd.UpdateConservesMass | faiss/Clustering.cpp:136-261 | mean update and splits together conserve the mass |
| Lloyd.UpdateConservesBarycentre | faiss/Clustering.cpp:136-261 | and the sum of mass times centroid, coordinate by coordinate |
| Lloyd.RefillingNeverStuck | faiss/Clustering.cpp:230-261 | without weights and frozen centroids, and with more points than clusters, whatever was split so far leaves a cluster to split |
| Lloyd.EnoughFreeMass | faiss/Clustering.cpp:230-261 | as much weight outside the frozen clusters as there are other clusters is always enough to refill |
| Lloyd.FrozenCanGetStuck | faiss/Clustering.cpp:230-240 | a nearest assignment with a frozen centroid whose masses do not allow the split needed |
| Lloyd.WeightedCanGetStuck | faiss/Clustering.cpp:230-240 | the same with nothing frozen and weights below 1 |
| Lloyd.ObjectiveByCluster | faiss/Clustering.cpp:478-482 | the objective, with or without weights, is the sum of the costs of the clusters |
| Lloyd.ObjectiveIs | faiss/Clustering.cpp:478-482 | each point adds its distance from its centroid, times its weight if there are weights |
| Lloyd.DistanceIs | faiss/Clustering.cpp:478-482 | a distance adds up the squared differences of all coordinates |
| Lloyd.MeanIsBest | faiss/Clustering.cpp:194-204 | no other centre has a smaller weighted sum of squares than the weighted mean |
| Lloyd.ReassignmentLowers | faiss/Clustering.cpp:446-482 | assigning each point to a nearest centroid gives the least objective among all assignments |
| Lloyd.UpdateLowers | faiss/Clustering.cpp:484-500 | the mean update does not raise the objective, with or without frozen centroids |
| Lloyd.Descent | faiss/Clustering.cpp:446-535 | after an iteration without splits the next weighted objective is at most this one's |
| Lloyd.ReportedMayRise | faiss/Clustering.cpp:478-500 | an instance with weights in which the objective that is reported, which ignores them, rises after an update without splits |
| Training.UpdateCentroids | faiss/Clustering.cpp:484-500 | succeeds iff the masses of the assignment allow the splits needed; then frozen centroids stay, the others become the means of their points, and exactly the empty ones among these are refilled by splits |
| Training.UpdatesThatFail | faiss/Clustering.cpp:484-500 | two updates, one with a frozen centroid and one with weights, that fail whatever is drawn |
| Training.UpdateKeepsFrozen | faiss/Clustering.cpp:484-500 | an update leaves each frozen centroid where it is |
| Training.UpdateRefills | faiss/Clustering.cpp:484-500 | the clusters refilled are exactly those without mass that are not frozen, in increasing order |
| Training.UpdateMoves | faiss/Clustering.cpp:484-500 | a cluster that is in no split moves to the mean of its points |
| Training.NoSplitIsMeanUpdate | faiss/Clustering.cpp:484-500 | an update without splits leaves every cluster with points |
| Training.Iterate | faiss/Clustering.cpp:443-535 | the history of the iterations: each reports the objective of its nearest-centroid assignment and its splits, and updates with that assignment; it ends early iff it comes to masses that do not allow the splits needed |
| Training.UpdatesWerePossible | faiss/Clustering.cpp:484-500 | the masses of every iteration that was made allowed its splits |
| Training.TrailDescends | faiss/Clustering.cpp:443-535 | over any such history, an iteration without splits is followed by one whose weighted objective is at most as high; without weights that is the objective reported |
| Training.TrailKeepsFrozen | faiss/Clustering.cpp:443-535 | over any such history, frozen centroids never move |
| Training.Clustering.Initialize | faiss/Clustering.cpp:413-427 | keeps the centroids provided and takes the others from the training points in the shuffled order |
| Training.Clustering.RunOnce | faiss/Clustering.cpp:408-535 | one restart is such a history, from the provided centroids as the restart before left them and from shuffled training points |
| Training.Clustering.NextRestart | faiss/Clustering.cpp:408-552 | the restart is remembered iff its last objective is below all earlier ones |
| Training.Clustering.Train | faiss/Clustering.cpp:264-559 | error, and nothing changed, when there are too few points; copies the points when there are as many as clusters; otherwise either the centroids are those of the first restart whose last report has the lowest objective, and the reports are all those up to that restart, or the last restart came to masses that do not allow the splits needed, which without weights and frozen centroids cannot be; frozen centroids end as they were provided |
| Training.Clustering.TrainedMeans | faiss/Clustering.cpp:408-552 | each restart begins with the centroids provided, as far as there are clusters for them and as the restart before left them, and with training points in its shuffled order; the centroids kept are the last ones of the best restart |
| Training.Clustering.TrainedUpdates | faiss/Clustering.cpp:443-535 | each iteration of each restart reports the objective of its nearest-centroid assignment and its number of splits, and updates with that assignment |
| Training.Clustering.TrainedReports | faiss/Clustering.cpp:536-559 | the reports are those of the restarts up to the one kept, in order, behind those from before |
| Training.Clustering.TrainedKeepsFrozen | faiss/Clustering.cpp:408-552 | frozen centroids are the same in all restarts and iterations |
| TwoLayer.CodeSize1 | faiss/Index2Layer.cpp:46-51 | the least number of bytes that holds every list number; none is found iff there are more than 2^48 lists |
| TwoLayer.ByteCountIsCodeSize | faiss/IndexIVF.cpp:132-140 | the loop that writes a list number writes as many bytes as the constructor reserved |
| TwoLayer.EncodeListNo | faiss/IndexIVF.cpp:132-140 | writes the list number little-endian and nothing else |
| TwoLayer.DecodeListNo | faiss/IndexIVF.cpp:142-153 | the number that the bytes stand for; error iff it is not that of a list |
| TwoLayer.ReadBack | faiss/IndexIVF.cpp:132-153 | every number that fits is read back from its bytes |
| TwoLayer.WriteBack | faiss/IndexIVF.cpp:132-153 | and bytes are rewritten as they were |
| TwoLayer.LittleEndianAt | faiss/IndexIVF.cpp:132-140 | byte i of a list number is its quotient by 256^i, modulo 256 |
| TwoLayer.Memmove | faiss/Index2Layer.cpp:317 | overlapping or not, the destination receives the old source bytes and nothing else changes |
| TwoLayer.WidenRow | faiss/Index2Layer.cpp:316-318 | one row: its code moved to its place with the list number in front, nothing outside the row touched |
| TwoLayer.WidenNext | faiss/Index2Layer.cpp:315-319 | the next lower row: the rows above stay complete and the codes below are not overwritten |
| TwoLayer.EncodeBlock | faiss/Index2Layer.cpp:306-319 | row i becomes list number then code of vector i, in place, for every i |
| TwoLayer.EncodedBytes | faiss/Index2Layer.cpp:315-319 | each byte of row i: first those of the list number, the least significant one first, then those of the code |
| TwoLayer.SaEncode | faiss/Index2Layer.cpp:287-320 | the same bytes for every block size as without blocks, nothing written outside; error iff not trained |
| TwoLayer.BlockOffsets | faiss/Index2Layer.cpp:291-304 | the encoding of a block is the part of the whole encoding at its offset |
| TwoLayer.RowReadsBack | faiss/Index2Layer.cpp:322-335 | the stored form of a vector gives back its list number and its code |
| TwoLayer.RowsAreDistinct | faiss/Index2Layer.cpp:315-335 | different pairs of list and code have different stored forms |
| TwoLayer.EncodedReadsBack | faiss/Index2Layer.cpp:117-133 | each row of an encoded batch gives back the list and the code of its vector |
| TwoLayer.DecodeRow | faiss/Index2Layer.cpp:329-337 | decoded code plus centroid of the list; error iff the stored list number is out of range |
| TwoLayer.SaDecode | faiss/Index2Layer.cpp:322-340 | all rows so; error iff some stored list number is out of range |
| TwoLayer.TransferToIVFPQ | faiss/Index2Layer.cpp:117-133 | list l of the empty target holds exactly the pairs of number and code of the vectors in list l, by increasing number; the list sizes add up to the number of vectors; error, and nothing changed, iff the target does not fit |
| RangeSearch.ThresholdRadiusNres | contrib/exhaustive_search.py:207-219 | selects the results strictly within the radius, and counts them per query |
| RangeSearch.SearchIs | contrib/exhaustive_search.py:207-219 | a search has the candidates strictly below the radius, or strictly above it for similarities, in the order of the index |
| RangeSearch.ThresholdIsSearch | contrib/exhaustive_search.py:207-219 | restricting the results of a search to a tighter radius is searching at that radius |
| RangeSearch.RankIsLoosest | contrib/exhaustive_search.py:242-247 | the distance picked by rank is the loosest radius with at most the target number of results strictly within it |
| RangeSearch.LoosestSearch | contrib/exhaustive_search.py:236-261 | and it is so for the search, not only for the results at hand |
| RangeSearch.PickRadius | contrib/exhaustive_search.py:240-247 | from the results at a radius, the loosest radius with at most the target number of results for the search itself |
| RangeSearch.ResultTable.ApplyMaxres | contrib/exhaustive_search.py:236-261 | picks the loosest radius with at most the target number of results over all queries so far and restricts the table in place; error iff there are not more results than the target |
| RangeSearch.ResultTable.Restrict | contrib/exhaustive_search.py:254-259 | the batches become the search results at the tighter radius |
| RangeSearch.SearchBatch | contrib/exhaustive_search.py:302-328 | keeps: the stored batches are exactly the results of all queries so far at the current radius, which stays unless there are too many results and then becomes the loosest that leaves at most the lower limit; fails iff there are too many results but not more than the lower limit |
| RangeSearch.RadiiAreUnique | contrib/exhaustive_search.py:302-328 | the radii are determined by the queries and the limits, and so is whether the search fails |
| RangeSearch.LimitsAre | contrib/exhaustive_search.py:278-284 | a limit that is not given is 0.8 times the upper one or 1.5 times the lower one, rounded down; without any limit there is none |
| RangeSearch.RadiusMeans | contrib/exhaustive_search.py:302-328 | the radius stays as long as there are not too many results; then it becomes strictly tighter, leaves at most the lower limit, and any looser one would leave more |
| RangeSearch.FoundMeans | contrib/exhaustive_search.py:346-353 | the bounds begin at 0, never fall and end at the number of results; between two of them are those of one query at the final radius |
| RangeSearch.ClippedMeans | contrib/exhaustive_search.py:340-344 | so does the final radius if clipping is asked for and there are more results than the lower limit; otherwise it is that of the last batch |
| RangeSearch.CutIsSearch | contrib/exhaustive_search.py:346-353 | cutting the stacked results at the cumulative counts gives each query its own results |
| RangeSearch.RangeSearchMaxResults | contrib/exhaustive_search.py:264-353 | the output is one plain range search at the final radius of that sequence, tightened once more on request; error iff no limit is given, there is no batch, or after some batch the total is above the upper limit but not above the lower one, which takes a lower limit above the upper one |
| RangeSearch.ThreeGetStuck | contrib/exhaustive_search.py:264-353 | an instance that fails: three results are more than 2 and fewer than the 5 that are to be left |
| RangeSearch.ExponentialQueryIterator | contrib/exhaustive_search.py:356-368 | the batches make up all queries in order and none is empty; the first has the starting size, each next one twice the size before as long as that is below the maximum, and the last one what is left |
| InvertedLists.ArrayInvertedLists.AddEntries | faiss/invlists/InvertedLists.cpp:286-301 | appends identifiers and codes to one list |
| InvertedLists.GetInvlistRange | faiss/IVFlib.cpp:295-312 | an independent copy of the lists in the range; error iff the range is not one |
| InvertedLists.SetInvlistRange | faiss/IVFlib.cpp:314-338 | exchanges the lists in the range with the given ones; the number of vectors stays the sum of the list sizes; error, and nothing changed, iff range or sizes do not fit |
| InvertedLists.ExchangeTwice | faiss/IVFlib.cpp:295-338 | exchanging twice restores both sides, and getting the range in between returns what was set |
| InvertedLists.TotalSizeUpdate | faiss/IVFlib.cpp:330-337 | how the sum of the list sizes follows the replacement of one list |
| SlidingWindow.ShiftAndAdd | faiss/IVFlib.cpp:192-221 | drops elements from the front in place and appends |
| SlidingWindow.ShiftSizes | faiss/IVFlib.cpp:261-263 | moves the slice boundaries of a list down by one slice |
| SlidingWindow.SlidingIndexWindow.constructor | faiss/IVFlib.cpp:182-190 | a window over an empty index holds no slice |
| SlidingWindow.SlidingIndexWindow.Step | faiss/IVFlib.cpp:236-290 | every list is the in-order concatenation of the live slices, with their codes and cumulative boundaries, and the number of vectors is the sum of the list sizes; error, and nothing changed, iff there is no slice to remove, the new slice is incompatible, or there is nothing to do |
| SlidingWindow.SlidingIndexWindow.ValidMeans | faiss/IVFlib.cpp:236-290 | between two neighbouring boundaries a list holds exactly the identifiers and the codes of one live slice, in order |
| SlidingWindow.SlidingIndexWindow.Replace | faiss/IVFlib.cpp:250-265 | oldest slice out and new one in |
| SlidingWindow.SlidingIndexWindow.Push | faiss/IVFlib.cpp:266-273 | new slice in |
| SlidingWindow.SlidingIndexWindow.Drop | faiss/IVFlib.cpp:274-285 | oldest slice out |
| SlidingWindow.DropFits | faiss/IVFlib.cpp:252-260 | the first boundary of a list is the size of its oldest slice, in identifiers and, scaled, in code bytes |
| SlidingWindow.ReplaceHolds | faiss/IVFlib.cpp:253-264 | contents and boundaries after the replacement are those of the new slices |
| SlidingWindow.CodesStayPaired | faiss/IVFlib.cpp:236-290 | each identifier in the window is still next to the code that it came with |
| SlidingWindow.LiveSlices | faiss/IVFlib.cpp:236-290 | after any sequence of legal steps the live slices are the added ones without as many of the oldest as were removed |
| Allocation.SharesAddUp | contrib/clustering.py:65-74 | the shares sum to exactly the number of sub-clusters, for any sizes |
| Allocation.SharesAreFair | contrib/clustering.py:65-74 | no share is negative, each is within one of the proportional one, and none exceeds the cluster size when there are not more sub-clusters than points |
| Allocation.SharesFitIff | contrib/clustering.py:65-74 | every cluster has enough points for its share iff there are not more sub-clusters than points in all |
| Allocation.EvenSharesDiffer | contrib/clustering.py:65-68 | without rebalancing any two shares differ by at most one |
| Allocation.DifferenceInPlace | contrib/clustering.py:72 | the in-place difference subtracts the old left neighbour |
| Allocation.AllocateSubclusters | contrib/clustering.py:65-74 | computes these shares in both modes |
| Allocation.AllottedIs | contrib/clustering.py:65-74 | each share is the difference of two cumulative shares, of the cluster sizes or of equal parts, rounded down |
| Allocation.BinCountIs | contrib/clustering.py:59 | the size of a cluster is the number of points assigned to it |
| Allocation.MembersAre | contrib/clustering.py:83-85 | the points that a share is trained on are those assigned to its cluster, in sorted order |
| Allocation.StackedAt | contrib/clustering.py:94 | the centroids returned are the blocks of all shares, stacked in order |
| Allocation.PlaceOfCluster | contrib/clustering.py:59-62 | in sorted order the points of the clusters before c fill the places before the sum of their sizes |
| Allocation.SliceIsCluster | contrib/clustering.py:83-85 | each slice of the sorted order is exactly the points of one cluster |
| Allocation.TrainSubclusters | contrib/clustering.py:76-92 | trains each share on the points of its cluster; fails iff some cluster has fewer points than its share |
| Allocation.TwoLevelClustering | contrib/clustering.py:26-94 | returns exactly the number of centroids asked for; with rebalancing it fails iff there are fewer points than clusters at either level |
| Assignment.Problem.NearestOfTwo | contrib/clustering.py:234-240 | keeping the strictly closer of two neighbouring ranges keeps the first of the closest |
| Assignment.MergeBlock | contrib/clustering.py:228-240 | one more block of centroids: every query of the block has the first of the closest so far, the other queries are untouched |
| Assignment.HandleQueryBlock | contrib/clustering.py:219-240 | a block of queries ends with the first of the closest of all centroids, whatever the block size |
| Assignment.BlocksTile | contrib/clustering.py:242-246 | each query is in exactly one block |
| Assignment.AssignBlocks | contrib/clustering.py:203-248 | whatever the block sizes and the order of the blocks, each query gets the first of its closest centroids and the distance, the norm of the query included; -1 and no distance without centroids |
| Assignment.Problem.SettledIsUnique | contrib/clustering.py:203-248 | there is one such outcome for a query |
| Assignment.AssignTwice | contrib/clustering.py:203-248 | two runs with different block sizes and orders agree entry by entry |
| Reassign.HalveConserves | contrib/clustering.py:332-339 | a split loses no point and empties no cluster |
| Reassign.SplitMeans | contrib/clustering.py:332-339 | the next empty cluster gets half of the points of the one drawn for it, rounded down, and no other cluster changes |
| Reassign.PassMeans | contrib/clustering.py:324-342 | a pass draws, among the clusters with more than one point at its beginning, as many as there are clusters to refill, or as there are clusters to split when these are fewer |
| Reassign.PassKeeps | contrib/clustering.py:332-340 | nor does a pass, and clusters waiting for their turn stay empty |
| Reassign.SizeOfDrawn | contrib/clustering.py:332-340 | a cluster is halved, rounding up, at each of its draws |
| Reassign.TurnsFilledIff | contrib/clustering.py:324-342 | a pass fills every cluster that has its turn iff no cluster of size s is drawn m times with s <= 2^(m-1) |
| Reassign.PassLosesIff | contrib/clustering.py:324-342 | a pass leaves a cluster empty and without another turn iff one was so before or a cluster is drawn too often in that sense |
| Reassign.PassFillsIff | contrib/clustering.py:324-342 | a pass with a draw for every empty cluster leaves none empty iff no cluster is drawn too often |
| Reassign.EveryDrawFillsIff | contrib/clustering.py:324-342 | with at least as many clusters to split as empty ones, all possible draws of the pass, m of them, leave no cluster empty iff every size above 1 is above 2^(m-1) |
| Reassign.EveryRunFillsIff | contrib/clustering.py:322-342 | so do all possible runs from such sizes, which take one pass |
| Reassign.OnePassIff | contrib/clustering.py:320-342 | a run takes a single pass iff there are at least as many clusters to split as empty ones; the comment that only more than half empty takes several is not quite right |
| Reassign.SeveralPassesForFew | contrib/clustering.py:320-322 | an instance: several passes with less than half of the clusters empty |
| Reassign.SeveralPassesMayLose | contrib/clustering.py:322-342 | an instance: the condition for one pass does not carry over to several |
| Reassign.LargeAlwaysFill | contrib/clustering.py:322-342 | for any number of passes, sizes above 1 that are at least 2^m, for m empty clusters, are enough for every run |
| Reassign.PassesLoseIff | contrib/clustering.py:322-342 | over any number of passes, no cluster is lost iff none of them drew a cluster too often |
| Reassign.EmptyClusterMayRemain | contrib/clustering.py:324-342 | an instance: draws that leave a cluster empty although there are more points than clusters |
| Reassign.ReassignCentroids | contrib/clustering.py:299-344 | after the passes it makes, no cluster is empty iff none of them drew a cluster too often; so it is for all draws under the conditions on sizes; a single pass iff there are enough clusters to split; total count conserved, no count negative, no cluster emptied; one split per empty cluster; fails iff clusters are left to refill when none holds more than one point, which takes fewer points than clusters |
| PrecisionRecall.AverageRecalls | contrib/evaluation.py:107-113 | the recall of each query, through stand-in sizes written over the empty ones |
| PrecisionRecall.AveragePrecisions | contrib/evaluation.py:115-121 | the precision of each query, 1 for a query without results; fails iff such a query is said to have correct results |
| PrecisionRecall.CountsToPR | contrib/evaluation.py:82-126 | the measures of the summed counts, or the means of the measures of each query; error iff the mode is unknown or a query without results is said to have correct ones |
| PrecisionRecall.MeasuresAre | contrib/evaluation.py:82-126 | precision times results and recall times ground truth are the correct results; the values where there are no results or no ground truth |
| PrecisionRecall.MeanIs | contrib/evaluation.py:82-126 | a mean, times how many there are, is the sum; there is none over no queries |
| PrecisionRecall.MeasuresMean | contrib/evaluation.py:82-126 | which measures each mode combines, and how |
| PrecisionRecall.MeasuresInUnit | contrib/evaluation.py:82-126 | with counts that are possible, both measures lie between 0 and 1 and the check does not fail |
| PrecisionRecall.SamePrecisionIff | contrib/evaluation.py:82-126 | of two sets of counts, one at most the other, the precisions are equal iff the counts are, in both modes |
| RangeEvaluation.FilterRangeResults | contrib/evaluation.py:32-39 | each query keeps its results under the threshold, in order |
| RangeEvaluation.SortRows | contrib/evaluation.py:129-151 | each row is sorted where it stands |
| RangeEvaluation.IsFound | contrib/evaluation.py:203-205 | searching the sorted ground truth, and looking at the last element past its end, decides membership |
| RangeEvaluation.SearchingCounts | contrib/evaluation.py:196-209 | the searched positions and the cumulative sums are the counts under the threshold |
| RangeEvaluation.CountsIgnoreOrder | contrib/evaluation.py:164-170 | sorting does not change the counts |
| RangeEvaluation.ComputePRFor | contrib/evaluation.py:185-209 | all counts of one query at all thresholds |
| RangeEvaluation.RowIs | contrib/evaluation.py:32-39 | the results of a query are those between its limits, in order |
| RangeEvaluation.CountsAre | contrib/evaluation.py:185-209 | a count is the number of results strictly under the threshold, or of those with an identifier from the ground truth |
| RangeEvaluation.TableMeans | contrib/evaluation.py:154-225 | an entry of the table measures exactly these counts |
| RangeEvaluation.CountAll | contrib/evaluation.py:164-212 | all counts of all queries, sorted first or given sorted |
| RangeEvaluation.RangePRMultipleThresholds | contrib/evaluation.py:154-225 | at each threshold the measures of the results under it; error iff the tables differ in length or the mode is unknown |
| RangeEvaluation.RangePR | contrib/evaluation.py:42-79 | the measures of the set intersections, query by query |
| RangeEvaluation.RangePRMeans | contrib/evaluation.py:42-79 | what is measured: for each query the numbers of true and of found results, and of different identifiers in both |
| RangeEvaluation.CountsAgreeIff | contrib/evaluation.py:57-66 | counting position by position gives at least the size of the intersection, and the same iff no ground truth identifier repeats among the results under the threshold |
| RangeEvaluation.OnePassAgreesIff | contrib/evaluation.py:154-225 | the one-pass measures equal those of filtering and intersecting iff no such identifier repeats; so does the precision alone |
| RangeEvaluation.RangePRInUnit | contrib/evaluation.py:42-79 | precision and recall lie between 0 and 1 |
| RangeEvaluation.OnePassInUnit | contrib/evaluation.py:154-225 | the one-pass precision lies between 0 and 1; the recall does if no correct identifier is repeated or no query counts more than its ground truth, and over all queries at once iff they do not count more in total |
| RangeEvaluation.RepeatCountsTwice | contrib/evaluation.py:196-209 | an instance: a correct identifier reported twice gives a one-pass recall of 2 |
| RangeEvaluation.CompareAtThreshold | contrib/evaluation.py:32-225 | both ways of computing an entry of the table, run side by side, agree under exactly that condition |

## Left out

- IEEE floating point: distances, times, masses and centroids are reals, so rounding, overflow, NaN and infinity are not modelled; an unset distance is `None`.
- Integer widths: `size_t` and `int` are unbounded, so overflow of the number of combinations or of the `int` permutation is not modelled.
- Explore.Explore: a measurement is a function of the combination number; timing, repeated runs up to a minimal duration, batches of queries and setting parameters on an index are left out.
- Pruning.PruningMatchesExhaustive: needs reliable combinations that dominate all and times below 1e50; `EnoughIffLossless` shows that skipping loses answers otherwise.
- OperatingPoints.OperatingPoints.MergeWith: merging a record with itself, which would never end, is excluded.
- OperatingPoints.OperatingPoints.Add: times are not negative; the origin has time 0.
- ResultHeap.ResultHeap.AddResultSubset: the parallel loop over repeated queries, in which two threads may write to one heap, runs in order here; distances are real numbers, better than the neutral one.
- BatchRuns.EveryRunSearchesCorrectly: states of the threaded execution hold the scores of each heap in order; among equal scores, which results a heap keeps depends on the order of the lists.
- BigBatch.BigBatchSearcher.ReorderAssign: the bucket sort is a contract; it is not stable, so the order inside a bucket is left open.
- BigBatch.BigBatchSearcher.PrepareBucket: reading the queries, the residuals, the codes and half precision belong to the scores that a list yields.
- BatchProtocol.StepKeeps: exceptions in worker threads, which interrupt the main thread, count as crashes; logging and the check of the sizes in a checkpoint are left out.
- BatchProtocol.CheckpointIsSound: when a checkpoint is written is left to chance instead of to a clock; checkpoints outside the threaded execution are documented as unsupported.
- SplitClusters.SplitClusters: the draws are a parameter that ends at a cluster with more than one point whenever there is one; that random draws get there with probability 1 is not proved, and having none is reported as an error where the code loops forever.
- Training.Clustering.Train: more frozen centroids than clusters are excluded when iterations follow, since the code then subtracts below zero; subsampling, spherical and integer post-processing, codecs, the check for non-finite input, similarity metrics and the index that holds the centroids are left out.
- Training.Clustering.RunOnce: the objective by which a restart is kept is that before its last update, as in the code; that the kept centroids are the best ones is therefore not claimed.
- TwoLayer.EncodeBlock: list assignment and product quantizer are functions of one vector; the residual between them is part of the code function.
- TwoLayer.SaDecode: decoding runs in order; the parallel loop writes disjoint rows.
- RangeSearch.RangeSearchMaxResults: GPUs, integer distances of binary indexes and statistics are left out; partitioning is a contract.
- SlidingWindow.SlidingIndexWindow.Step: the compatibility check is a parameter; slices share no storage with the window, and the transforms around an index are not part of the model.
- InvertedLists.SetInvlistRange: the lists handed over are not those of the index itself.
- Allocation.TwoLevelClustering: the first-level assignment, the sort by cluster and the second-level k-means are parameters; the latter needs at least as many points as centroids and returns as many as asked for.
- Assignment.AssignBlocks: blocks of queries are handled one at a time in any order; sparse matrices are a distance function.
- Reassign.ReassignCentroids: the centroids themselves, scaled up and down by factors, are left out, since they conserve neither mass nor barycentre.
- RangeEvaluation.RangePRMultipleThresholds: sorting routines are contracts, distances and identifiers are paired, and queries are handled in order; rows that are said to be sorted must be.
- Level1Quantizer training, `ivf_residual_add_from_flat_codes`, search statistics, index factories, parameter dispatch by name, file input and output, GPU, remote and C interfaces: plumbing without a property of this kind.
- The autotuning, dataset and comparison helpers in Python other than the precision-recall functions: variants of what is modelled here.
