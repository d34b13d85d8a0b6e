# Verification of the netco RPC core

A Dafny model of the load balancing, naming, framing and memory code of netco, with proofs of what that
code promises. `dafny verify dfyconfig.toml` checks all of it. Code that updates objects in place is
modelled by classes and methods with loops, protocols by transition systems whose steps may interleave
in any order, wire formats by functions.

## What is modelled

**Weight tree** (`WeightTree`, `WeightSearch`). Servers sit in a complete binary tree kept in a vector;
position `i` has the children `2i + 1` and `2i + 2`, and a counter `left` holds the sum of the weights in
its left subtree. `WeightSearch` sets the descent against a linear scan over the in-order.

**Double buffer** (`DoubleBuffer`, `DoubleBufferRefinement`). One step per lock operation, load or store,
for any number of threads; threads may share a thread key and with it a wrapper. The refinement runs
the protocol with the two buffers, and a buffer that `fn` works on has no value. A value read is
compared with the fold of the modifications committed so far.

**Locality-aware balancer under concurrency** (`PendingAdds`, `SharedWeights`, `ConcurrentTree`,
`ConcurrentTreeProofs`, `ConcurrentTreeTheorems`). A weight change is one step under the weight's
mutex, every `fetch_add` another one, and Add and Remove are taken apart into both applications with
Disable, MarkOld and ClearOld. Readers and the modifying thread interleave freely; "threads" below are
those that read. `ConcurrentTreeTraces` builds runs step by step. With them `ConcurrentTreeBounds`,
`ConcurrentTreeLimits`, `ConcurrentTreeRemovals`, `ConcurrentTreeTotals` and `ConcurrentTreeStarts` say how
large counters and total get, and exactly when they stay within 64 bits, positive and correct. `OuterMap`
adds the map that callers consult, under another mutex, before they modify anything.

**Locality-aware balancer, one thread** (`ServerLayout`, `BoundedQueue`, `LatencyWindow`, `WeightScale`, `ChangedWeights`,
`Weight`, `Selections`, `LocalityAware`). The operations as methods over two buffers that share counters and weight
objects. A counter is a slot of `lefts` and the shared pointer to it is the number of the slot. The
single loop of `select_server` is `Select` around `Search`, and its body after the search is `Try`.
`Selections` says of its dice which of them are rejected and which one decides.
Ghost fields record all latencies (`history`) and all calls without feedback (`outstanding`).

**Weighted-random balancer** (`WeightedRandom`). Its `Add` and `Remove` are, line for line, those of the
locality-aware balancer, so only its selection has a method of its own.

**Naming service** (`ServerLists`, `NamingService`). Two list buffers, the pending difference as fields,
and the attached balancer, which is an object of the class above.

**Remote calls** (`ProtobufWire`, `RpcHeaders`, `RpcFrame`). Wire format, both headers with their parse
loops, dispatch in the server stub, and the frames on both sides. The functions of the Protocol Buffers
runtime are not part of the repository; they follow the Encoding specification.

**Allocator, intake queue, calendar** (`MemPool`, `Processor`, `Calendar`).

## What the proofs turned up

- Selection throws 1 .. total but the tree's intervals begin at 0: the leftmost node is reached by one
  dice fewer than its weight, and the dice `total` by none (`WeightSearch.HitsAreWeights`). With one
  server that dice makes the selection fail (`WeightedRandom.SingleServerMisses`). docs/LALB.md has
  both comparisons of the search the other way round; the model follows the code.
- In the weighted-random balancer a new server gets the average of equal weights, so all weights stay
  equal and the selection is uniform (`WeightedRandom.SelectionIsUniform`).
- Counters and total are exact again once nothing is pending, in all runs, if and only if there is at most one
  reading thread (`ConcurrentTreeStarts.ExactWhenQuietIff`). With two, a change that is not yet added can leave
  the total at 0 when a server is added; it starts with weight 0, by which Remove recognises its second
  application, and the counters stay wrong. For any number of threads they are exact as long as no server
  starts with 0 (`ConcurrentTreeTheorems.QuietCountersExact`). A negative total is divided as an unsigned
  number and starts a new server at nearly the largest 64-bit number (`ConcurrentTreeStarts.HugeStart`).
- A total below 1, which `select_server` hands to `getRand`, is reached between modifications with two threads
  and in the middle of a Remove with one (`ConcurrentTreeTotals.PositiveAtRestIffOneThread`,
  `PositiveThroughoutIff`); it is always due to raises that readers have still to add
  (`ConcurrentTreeBounds.TotalFloor`).
- "Will not overflow" holds for the products, and for the total of up to 72 servers when nothing is pending, not
  for the 127 the name of the constant suggests (`ConcurrentTreeTotals.FitsWhenQuietIff`). With changes
  pending, servers and threads together may be 73 between modifications (`FitsAtRestIff`), and 72 if the total is
  to fit in every state (`FitsThroughoutIff`). A weight does swing that far (`Weights.WeightSwings`).
- During a Remove readers of the two layouts can move weight into `_old_diff_sum`, and the second application
  carries it over in two climbs, one after the other. From the beginning of a Remove to its end a stored counter,
  with what readers still owe to it, keeps the bounds of a sum of weights if and only if the last server goes, or
  the counter has neither position of the moving server on its left (`ConcurrentTreeRemovals.StoredBoundedIff`).
  With up to 72 servers any other counter leaves 64 bits after one reweighing by each of 300 threads that have made
  all their additions (`AffectedOverflows`). Settled, that is with the climbs of the Remove added too, a counter
  keeps them if and only if it has both positions on its left, or neither (`SettledBoundedIff`).
- The outer map is checked under another mutex than the modification. The buffers stay aligned with it if and
  only if modifications of one name happen in the order of their checks (`OuterMap.AlignedIffOrderKept`), which
  is sure exactly while no two calls for one name are between the two (`AnyNextInOrderIff`).
- The two buffers agree after every modification if and only if the function makes the same change when
  it finds the foreground already changed (`DoubleBufferRefinement.BuffersAgreeIffRepeats`).
- The inflight numbers match the outstanding calls after a feedback if and only if the call was sent to
  the weight that gets the feedback (`Weights.Weight.Update`). If the server was removed and added again in
  between, the new weight ends up with -1 calls (`LocalityAwareLoadBalancer.FeedbackAfterReplacement`).
- The naming service replays a difference correctly on lists with duplicates, but the balancer follows
  exactly if no listed server merely becomes rarer (`NamingService.BalancerFollows`).
- A service or method name that is not UTF-8 stops the header parser, whose verdict both stubs ignore:
  the method is then called with no arguments (`RpcFrame.Expected`).
- `toLocalTime` agrees with the POSIX formula exactly before 1 March 2100
  (`Calendar.AgreesWithPosixUntil2100`).

## Model

| member | source | states |
|---|---|---|
| `WeightTree.ClimbStep` | include/rpc_proto/locality_aware_load_balancer.h:124-133 | one turn of the climb: the ancestors with `x` on their left are the parent, if `x` is its left child, and those that have the parent on their left |
| `WeightTree.SubtreeSumSplits` | include/rpc_proto/locality_aware_load_balancer.h:20-23 | a subtree weighs its root plus its left and its right subtree, which the search rests on |
| `WeightTree.SubtreeSumUpdate` | include/rpc_proto/locality_aware_load_balancer.h:122-133 | a weight change moves exactly the sums of the subtrees that contain the position |
| `WeightTree.SubtreeSumAtMostSum` | include/rpc_proto/locality_aware_load_balancer.h:110-115 | no counter exceeds the total |
| `WeightSearch.DescendIsScan` | src/rpc_proto/weighted_random_load_balancer.cc:136-168 | for every dice the tree search finds the node that a linear scan over the in-order finds |
| `WeightSearch.HitInterval` | src/rpc_proto/weighted_random_load_balancer.cc:136-168 | the search ends at a node if and only if the dice lies in its in-order prefix interval |
| `WeightSearch.DescendFallsOff` | src/rpc_proto/weighted_random_load_balancer.cc:145-152 | the search leaves the vector if and only if the dice is at least the total |
| `WeightSearch.RestIsBehindFound` | src/rpc_proto/locality_aware_load_balancer.cc:138-156 | what is left of a dice where the search stops is the dice less the weight of all nodes that come before that node in the in-order |
| `WeightSearch.HitsAreWeights` | src/rpc_proto/weighted_random_load_balancer.cc:132-168 | of the dice 1 .. total each node is reached by as many as its weight, the leftmost by one fewer, and the total by none |
| `WeightSearch.VisitedAtMostDepth` | src/rpc_proto/locality_aware_load_balancer.cc:136-153 | a search looks at no more nodes than the tree has levels |
| `DoubleBuffer.RunInv` | include/container/doubly_buffered_data.h:174-228 | lock ownership and awaited scopes, in every state of every run |
| `DoubleBuffer.NeverModifiedWhileRead` | include/container/doubly_buffered_data.h:174-228 | `fn` is never applied to a buffer that a scope points to, also for wrappers made while a modification is under way |
| `DoubleBuffer.SharedKeyExcludes` | include/container/doubly_buffered_data.h:190-202 | threads with the same key never read at the same time |
| `DoubleBuffer.ModifyCanFinish` | include/container/doubly_buffered_data.h:214-234 | from every state the modification in progress can be finished by ending reads already begun |
| `DoubleBufferRefinement.ReadsSeeAPrefix` | include/container/doubly_buffered_data.h:174-228 | an open scope shows a whole value, the fold of a prefix of the committed modifications |
| `DoubleBufferRefinement.VersionsNeverGoBack` | include/container/doubly_buffered_data.h:174-228 | commits are only appended and no thread reads an older version than before |
| `DoubleBufferRefinement.ScopeIsStable` | include/container/doubly_buffered_data.h:154-171 | a scope shows the same value for as long as it is open |
| `DoubleBufferRefinement.QuietBuffersAgree` | include/container/doubly_buffered_data.h:214-234 | without a modification in progress both buffers are the fold of all modifications |
| `DoubleBufferRefinement.PlainModifyRepeats` | include/container/doubly_buffered_data.h:69-79 | functions that ignore the foreground always repeat |
| `DoubleBufferRefinement.WithoutRepeatBuffersDiffer` | include/container/doubly_buffered_data.h:101-112 | a function that does not repeat has a run that ends with different buffers |
| `DoubleBufferRefinement.BuffersAgreeIffRepeats` | include/container/doubly_buffered_data.h:101-112 | the buffers agree whenever nothing is being modified, in every run, if and only if the function repeats |
| `PendingAdds.AdvanceConserves` | include/rpc_proto/locality_aware_load_balancer.h:124-133 | one `fetch_add` of a climb takes off the pending amount of every counter exactly what it adds to it |
| `PendingAdds.ClearOldAmounts` | src/rpc_proto/locality_aware_load_balancer.cc:83-94 | what the second application of Remove adds to each counter and to the total |
| `SharedWeights.ReweighContributions` | src/rpc_proto/locality_aware_load_balancer.cc:202-223 | a reader that reweighs a server during a Remove changes the contribution of the position it used, old or new, by the difference |
| `SharedWeights.UnlinkFirst` | src/rpc_proto/locality_aware_load_balancer.cc:63-77 | MarkOld makes the moving server count at both positions |
| `SharedWeights.UnlinkSecond` | src/rpc_proto/locality_aware_load_balancer.cc:79-94 | ClearOld moves what was saved to the new position and drops the old one |
| `ConcurrentTreeProofs.StepInv` | src/rpc_proto/locality_aware_load_balancer.cc:21-98 | every step of readers, Add and Remove keeps layouts, marks, pass detection and conservation |
| `ConcurrentTreeTheorems.CountersExactUpToPending` | src/rpc_proto/locality_aware_load_balancer.cc:48-98 | conservation: as long as no server starts with weight 0, in every state each counter plus its pending additions is the sum of the contributions to its left, and the total likewise |
| `ConcurrentTreeTheorems.QuietCountersExact` | src/rpc_proto/locality_aware_load_balancer.cc:21-98 | once nothing is pending, both buffers are equal and inverse to their maps and all counters and the total are exact |
| `ConcurrentTreeTheorems.PassDetectionIsSound` | src/rpc_proto/locality_aware_load_balancer.cc:53-79 | `weight_rm != 0` holds exactly in the first application of Remove, whatever readers do |
| `ConcurrentTreeTheorems.AddFindsTheForeground` | src/rpc_proto/locality_aware_load_balancer.cc:24-30 | Add finds the name in the foreground exactly in its second application |
| `ConcurrentTreeTheorems.ClimbsStayInside` | include/rpc_proto/locality_aware_load_balancer.h:122-133 | every climb, of a reader or of the modification, stays inside the buffer it goes through, and every position has a counter |
| `ConcurrentTreeTheorems.HeldBufferIsStable` | include/container/doubly_buffered_data.h:154-171 | the layout a reader holds does not change under it |
| `ConcurrentTreeBounds.ContributionsBound` | src/rpc_proto/locality_aware_load_balancer.cc:69-94 | while a server counts twice the sum of contributions is still at most one bound per position |
| `ConcurrentTreeBounds.TotalBounds` | src/rpc_proto/locality_aware_load_balancer.cc:8-11 | in every state of every run with n servers and T threads the total lies between -(T + 1) and n + T + 1 times the largest weight |
| `ConcurrentTreeBounds.CounterBounds` | include/rpc_proto/locality_aware_load_balancer.h:122-133 | so does every counter, unless a Remove is under way |
| `ConcurrentTreeBounds.TotalFitsInt64` | src/rpc_proto/locality_aware_load_balancer.cc:8-11 | the total fits 64 bits in every state if servers and threads together are fewer than 72 |
| `ConcurrentTreeBounds.CounterFitsInt64` | src/rpc_proto/locality_aware_load_balancer.cc:8-11 | so does every counter, unless a Remove is under way |
| `ConcurrentTreeBounds.SettledTotalFitsInt64` | src/rpc_proto/locality_aware_load_balancer.cc:8-11 | with up to 72 servers and nothing pending to it the total fits 64 bits for any number of threads, also in the middle of a Remove |
| `ConcurrentTreeBounds.QuietWeightsWithin` | src/rpc_proto/locality_aware_load_balancer.cc:202-223 | if all servers start within the bounds of the weights, all weights are within them in every quiet state |
| `ConcurrentTreeBounds.QuietLeftsFitInt64` | src/rpc_proto/locality_aware_load_balancer.cc:8-11 | with at most 72 servers every counter fits 64 bits when nothing is pending and no modification runs |
| `ConcurrentTreeBounds.TotalFloor` | src/rpc_proto/locality_aware_load_balancer.cc:48-98 | in every state the total, with what readers still owe to it, is at least the minimum weight for each server both buffers have |
| `ConcurrentTreeBounds.RestBounds` | src/rpc_proto/locality_aware_load_balancer.cc:219-223 | between modifications the total is off from n weights by at most one swing of a weight for every thread but one |
| `ConcurrentTreeBounds.TotalCeiling` | src/rpc_proto/locality_aware_load_balancer.cc:48-98 | and at most the largest weight for each position, where a position that has just been unlinked counts until its weight has been taken out |
| `ConcurrentTreeLimits.CounterOverflows` | src/rpc_proto/locality_aware_load_balancer.cc:219-221 | between the applications of Remove a run has overflowed any counter that has just one of the two positions on its left, with all weights within the bound, one reweighing by each of 300 threads, and nothing pending at all |
| `ConcurrentTreeLimits.RootCounterOverflows` | src/rpc_proto/locality_aware_load_balancer.cc:219-221 | the root counter of two servers overflows while the first is removed |
| `ConcurrentTreeRemovals.UnaffectedCounterBounds` | src/rpc_proto/locality_aware_load_balancer.cc:48-98 | from the beginning of a removal to its end, if the last server goes or neither position of the moving server is on its left, a stored counter with what readers still owe to it lies between 0 and one bound per position |
| `ConcurrentTreeRemovals.RemovalCounterBounds` | include/rpc_proto/locality_aware_load_balancer.h:122-133 | and the stored counter alone is at most one bound per reader further off |
| `ConcurrentTreeRemovals.StoredBoundedIff` | src/rpc_proto/locality_aware_load_balancer.cc:63-94 | no other counter keeps these bounds, readers set apart, in every state of every removal at that position in every run |
| `ConcurrentTreeRemovals.AffectedOverflows` | src/rpc_proto/locality_aware_load_balancer.cc:79-94 | a run in which any other counter leaves 64 bits during the removal although no reader has anything left to add, with all weights within the bound and one reweighing by each of 300 threads |
| `ConcurrentTreeRemovals.StoredFitsIff` | src/rpc_proto/locality_aware_load_balancer.cc:8-11 | with up to 72 servers a stored counter to which no reader owes anything fits 64 bits throughout every removal at a position if and only if the last server goes or neither position is on its left |
| `ConcurrentTreeRemovals.BalancedCounterBounds` | src/rpc_proto/locality_aware_load_balancer.cc:63-94 | settled, that is with all additions made that readers and the removal still owe, a counter with both positions on its left, or neither, lies between 0 and one bound per position from beginning to end |
| `ConcurrentTreeRemovals.SettledBoundedIff` | src/rpc_proto/locality_aware_load_balancer.cc:63-94 | and no other counter, settled, does so in every run |
| `ConcurrentTreeTotals.PositiveAtRestIff` | src/rpc_proto/locality_aware_load_balancer.cc:128-134 | between modifications the total of n servers is positive in all runs of T threads if and only if n minimum weights exceed T - 1 swings |
| `ConcurrentTreeTotals.PositiveAtRestIffOneThread` | src/rpc_proto/locality_aware_load_balancer.cc:128-134 | for the largest weight and any servers, that needs a single thread |
| `ConcurrentTreeTotals.FitsAtRestIff` | src/rpc_proto/locality_aware_load_balancer.cc:8-11 | between modifications the total of at least one server fits 64 bits in all runs of at least one thread if and only if servers and threads are together at most 73 |
| `ConcurrentTreeTotals.FitsThroughoutIff` | src/rpc_proto/locality_aware_load_balancer.cc:7-11 | in every state, also in the middle of a modification, the total of two or more positions fits in all runs of at least one thread if and only if positions and threads are together at most 72 |
| `ConcurrentTreeTotals.RemovedWhileLowered` | src/rpc_proto/locality_aware_load_balancer.cc:53-77 | a run in which every thread owes a reduction of the server that is removed ends with one bound per position and one swing per thread |
| `ConcurrentTreeTotals.FitsWhenQuietIff` | src/rpc_proto/locality_aware_load_balancer.cc:7-11 | with nothing pending it fits in all runs if and only if there are at most 72 servers |
| `ConcurrentTreeTotals.RemovedWhileRaised` | src/rpc_proto/locality_aware_load_balancer.cc:53-62 | a run in which a server is removed while a raise of it is pending ends with a total of three scales less the raised weight |
| `ConcurrentTreeTotals.PositiveThroughoutIff` | src/rpc_proto/locality_aware_load_balancer.cc:128-134 | the total is positive whenever both buffers have servers, also in the middle of a modification, in all runs if and only if there is no reader |
| `ConcurrentTreeStarts.SingleThreadStarts` | src/rpc_proto/locality_aware_load_balancer.cc:32-36 | with at most one thread every server starts within the bounds of the weights, in every run |
| `ConcurrentTreeStarts.Miscount` | src/rpc_proto/locality_aware_load_balancer.cc:32-94 | a run of two or more threads in which a server starts with 0, and its removal leaves the root counter at 0 for good although its left child weighs half the scale |
| `ConcurrentTreeStarts.ExactWhenQuietIff` | src/rpc_proto/locality_aware_load_balancer.cc:21-98 | counters and total are exact in all quiet states of all runs of T threads if and only if T is at most 1 |
| `ConcurrentTreeStarts.HugeStart` | src/rpc_proto/locality_aware_load_balancer.cc:32-36 | a run whose readers set no weight above the largest, and in which a server starts with more than 71 times that |
| `OuterMap.AlignedIffOrderKept` | src/rpc_proto/locality_aware_load_balancer.cc:100-121 | the buffers stay aligned throughout a run if and only if for every name the modifications happen in the order in which the outer map accepted them |
| `OuterMap.AnyNextInOrderIff` | src/rpc_proto/locality_aware_load_balancer.cc:100-121 | whichever waiting modification comes next is in order if and only if no two of them are for one name |
| `OuterMap.SerialCallersStayAligned` | src/rpc_proto/locality_aware_load_balancer.cc:100-121 | callers that never overlap for one name keep the buffers aligned |
| `OuterMap.OvertakenAddition` | src/rpc_proto/locality_aware_load_balancer.cc:100-121 | a removal that overtakes the addition of its name takes out the first server |
| `OuterMap.BeginIsDue` | src/rpc_proto/locality_aware_load_balancer.cc:100-121 | the concurrent balancer begins a modification exactly if it is due in the order of the outer map |
| `ServerLayout.AddKeepsAligned` | src/rpc_proto/locality_aware_load_balancer.cc:38-39 | adding keeps the map the inverse of the name vector |
| `ServerLayout.RemoveKeepsAligned` | src/rpc_proto/locality_aware_load_balancer.cc:50-68 | removing by moving the last server keeps the map the inverse of the name vector |
| `ServerLayout.RemoveEntryShape` | src/rpc_proto/locality_aware_load_balancer.cc:54-68 | counters stay where they are and only the removed position gets another server |
| `ServerLayout.RemoveOfAbsentHitsTheFirst` | src/rpc_proto/locality_aware_load_balancer.cc:50-52 | a name that is not there would take out the server at position 0 |
| `BoundedQueues.Mod` | include/container/bounded_queue.h:261-266 | the subtract loop computes the remainder |
| `BoundedQueues.BoundedQueue.constructor` | include/container/bounded_queue.h:44-50 | an empty queue of the given capacity |
| `BoundedQueues.BoundedQueue.Push` | include/container/bounded_queue.h:70-77 | appends at the bottom, or reports a full queue |
| `BoundedQueues.BoundedQueue.ElimPush` | include/container/bounded_queue.h:81-89 | appends at the bottom and drops the topmost item of a full queue |
| `BoundedQueues.BoundedQueue.PushTop` | include/container/bounded_queue.h:102-110 | prepends at the top, wrapping round the storage |
| `BoundedQueues.BoundedQueue.Pop` | include/container/bounded_queue.h:137-147 | takes the topmost item |
| `BoundedQueues.BoundedQueue.PopBottom` | include/container/bounded_queue.h:162-171 | takes the bottommost item |
| `BoundedQueues.BoundedQueue.Clear` | include/container/bounded_queue.h:174-180 | empties the queue |
| `BoundedQueues.BoundedQueue.Top` | include/container/bounded_queue.h:193-204 | the item so many places below the top, or nothing |
| `BoundedQueues.BoundedQueue.Bottom` | include/container/bounded_queue.h:217-228 | the same as the top at size - 1 - index |
| `BoundedQueues.ElimPushKeepsTheLatest` | include/container/bounded_queue.h:79-89 | a queue that is only eliminated into holds the latest items, as many as fit |
| `LatencyWindow.EntryAt` | src/rpc_proto/locality_aware_load_balancer.cc:277-281 | an entry is the sum of all latencies up to its call |
| `LatencyWindow.RecordedEntries` | src/rpc_proto/locality_aware_load_balancer.cc:277-281 | the queue after a sample was pushed on top of the sum so far |
| `LatencyWindow.WindowDifference` | src/rpc_proto/locality_aware_load_balancer.cc:300-303 | bottom minus top is the sum of the latencies in the window but the oldest |
| `WeightScale.SumOfWeightsFits` | src/rpc_proto/locality_aware_load_balancer.cc:7-9 | sums of up to 72 weights fit 64 bits |
| `WeightScale.MaxServersIsTight` | src/rpc_proto/locality_aware_load_balancer.cc:7-9 | and 72 is the most |
| `Weights.NewWeightBounds` | src/rpc_proto/locality_aware_load_balancer.cc:202-215 | the punished weight lies between the minimum and the larger of minimum and base |
| `Weights.NewWeightFallsWithTime` | src/rpc_proto/locality_aware_load_balancer.cc:204-212 | it never increases with the time, all else fixed |
| `Weights.DelayIsMeanAge` | src/rpc_proto/locality_aware_load_balancer.cc:204-206 | for calls begun by now, the inflight delay is the mean of their ages, rounded up |
| `Weights.NewWeightIsFair` | src/rpc_proto/locality_aware_load_balancer.cc:202-215 | the weight for given calls in flight is punished exactly if their mean age reaches the average latency, and is then base times average over mean age, cut to an integer and raised to the minimum; otherwise it is the base, raised to the minimum |
| `Weights.NewWeightBeforeFeedback` | src/rpc_proto/locality_aware_load_balancer.cc:209 | without an average latency no call in flight counts |
| `Weights.TruncDivLaw` | src/rpc_proto/locality_aware_load_balancer.cc:206-210 | division as in C++, by its remainder |
| `Weights.ScaledQpsBounds` | src/rpc_proto/locality_aware_load_balancer.cc:287-299 | the product fits 64 bits, and the scaled QPS lies between the scale and 127000000 times the scale |
| `Weights.RateLaw` | src/rpc_proto/locality_aware_load_balancer.cc:286-299 | of a window that is full or spans a second the rate is the calls after the first per second, scaled and cut to an integer, and at least one a second; of any other window it is one a second |
| `Weights.SteadyHistory` | src/rpc_proto/locality_aware_load_balancer.cc:291-313 | c calls a second over whole seconds give c times the scale, divided by the average latency |
| `Weights.WeightSwings` | src/rpc_proto/locality_aware_load_balancer.cc:202-215 | a full window in one microsecond gives the largest weight, which a call in flight leaves there, takes to the minimum, or after a second to a millionth |
| `Weights.Rate` | src/rpc_proto/locality_aware_load_balancer.cc:287-299 | the rate the law demands: measured exactly if the window is full or spans a second |
| `Weights.WindowMeanAtLeastOne` | src/rpc_proto/locality_aware_load_balancer.cc:300-312 | every mean latency is at least 1 and no division is by zero |
| `Weights.BeginTimeSumFits` | src/rpc_proto/locality_aware_load_balancer.cc:196-197 | the sum of begin times of n calls begun by time t is sure to fit 64 bits if and only if n is at most INT64_MAX / t |
| `Weights.Weight.constructor` | include/rpc_proto/locality_aware_load_balancer.h:53-64 | initial values; the base weight is the initial weight too, and nothing has been measured |
| `Weights.Weight.ResetWeight` | src/rpc_proto/locality_aware_load_balancer.cc:202-223 | the new weight, which for accounted calls is what their mean age demands, the difference, and the saved difference at the marked position; the product stays inside 64 bits |
| `Weights.Weight.AddInflight` | src/rpc_proto/locality_aware_load_balancer.cc:184-200 | a call is counted exactly if it is chosen, and the accounts stay in order |
| `Weights.Weight.Update` | src/rpc_proto/locality_aware_load_balancer.cc:257-328 | a feedback changes nothing at a disabled weight, otherwise records a positive latency and arrives at the measured weight, with the base weight that the rate and the mean latency of the window demand; the accounts stay in order if and only if the call was outstanding here |
| `Weights.Weight.Record` | src/rpc_proto/locality_aware_load_balancer.cc:275-281 | the queue holds exactly the newest samples as running sums |
| `Weights.Weight.Measure` | src/rpc_proto/locality_aware_load_balancer.cc:285-327 | average latency is the mean of the newest n - 1 latencies, or the single one; without elapsed time between several samples neither it nor base weight nor weight changes |
| `Weights.Weight.Rebase` | src/rpc_proto/locality_aware_load_balancer.cc:313-327 | base weight times average latency never exceeds the largest scaled QPS |
| `Weights.Weight.MarkOld` | src/rpc_proto/locality_aware_load_balancer.cc:234-241 | weight and position are saved and the saved difference starts at 0 |
| `Weights.Weight.ClearOld` | src/rpc_proto/locality_aware_load_balancer.cc:242-250 | what was saved is handed back and cleared |
| `Weights.Weight.Disable` | src/rpc_proto/locality_aware_load_balancer.cc:251-256 | the weight is handed back and stays 0 |
| `ChangedWeights.FirstPassCounts` | src/rpc_proto/locality_aware_load_balancer.cc:54-77 | the additions of the first application turn the counters into those of the half-removed weights |
| `ChangedWeights.SecondPassCounts` | src/rpc_proto/locality_aware_load_balancer.cc:79-94 | those of the second application turn them into those of the remaining weights |
| `LocalityAware.InitialWeightWithin` | src/rpc_proto/locality_aware_load_balancer.cc:33-36 | the average that a new server starts with lies within the bounds of a weight |
| `LocalityAware.LocalityAwareLoadBalancer.constructor` | include/rpc_proto/locality_aware_load_balancer.h:27 | an empty balancer |
| `LocalityAware.LocalityAwareLoadBalancer.UpdateParentWeight` | include/rpc_proto/locality_aware_load_balancer.h:122-133 | adds to the counters of exactly those positions that have the index on their left, even if the index is the size |
| `LocalityAware.LocalityAwareLoadBalancer.Retire` | src/rpc_proto/locality_aware_load_balancer.cc:52-53 | Disable, and MarkOld or ClearOld: regular weights become half-retired, half-retired ones regular |
| `LocalityAware.LocalityAwareLoadBalancer.Recount` | src/rpc_proto/locality_aware_load_balancer.cc:54-94 | what either application adds to the counters and to the total, for any saved amounts |
| `LocalityAware.LocalityAwareLoadBalancer.Remove` | src/rpc_proto/locality_aware_load_balancer.cc:48-98 | one application: structure, weights, counters and total |
| `LocalityAware.LocalityAwareLoadBalancer.RemoveFirst` | src/rpc_proto/locality_aware_load_balancer.cc:53-77 | the first application finds a weight that is not 0 |
| `LocalityAware.LocalityAwareLoadBalancer.RemoveSecond` | src/rpc_proto/locality_aware_load_balancer.cc:79-95 | the second finds 0 and leaves the tree exact |
| `LocalityAware.LocalityAwareLoadBalancer.ModifyRemove` | src/rpc_proto/locality_aware_load_balancer.cc:120 | both buffers lose the server and agree again |
| `LocalityAware.LocalityAwareLoadBalancer.RemoveServer` | src/rpc_proto/locality_aware_load_balancer.cc:113-121 | the invariant of the balancer is kept and its names lose the server; an absent one changes nothing |
| `LocalityAware.LocalityAwareLoadBalancer.CopyEntry` | src/rpc_proto/locality_aware_load_balancer.cc:24-29 | the second application shares counter and weight of the foreground |
| `LocalityAware.LocalityAwareLoadBalancer.CreateEntry` | src/rpc_proto/locality_aware_load_balancer.cc:30-45 | the first application makes a new counter and a new weight whose base is the initial weight, and leaves the tree exact |
| `LocalityAware.LocalityAwareLoadBalancer.Add` | src/rpc_proto/locality_aware_load_balancer.cc:21-47 | which branch runs, and what each does |
| `LocalityAware.LocalityAwareLoadBalancer.ModifyAdd` | src/rpc_proto/locality_aware_load_balancer.cc:108 | both buffers gain the same position and agree again |
| `LocalityAware.LocalityAwareLoadBalancer.AddServer` | src/rpc_proto/locality_aware_load_balancer.cc:100-109 | the invariant is kept and the names gain the server, whose weight and base weight are the initial weight; adding it again changes no buffer |
| `LocalityAware.LocalityAwareLoadBalancer.Search` | src/rpc_proto/locality_aware_load_balancer.cc:135-153 | one search is the descent: it stays inside the vector, and the rest of the dice, which falls inside the weight found, is the dice less all that comes before that node |
| `LocalityAware.LocalityAwareLoadBalancer.Try` | src/rpc_proto/locality_aware_load_balancer.cc:156-166 | the weight found is refreshed, the tree stays exact, and the node is taken if it still covers the dice |
| `LocalityAware.LocalityAwareLoadBalancer.Select` | src/rpc_proto/locality_aware_load_balancer.cc:128-181 | every dice but the last is the total, or its rest exceeds the refreshed weight of the node it finds; the last decides likewise; the selection fails exactly when fallen and rejected searches, rejected ones counted twice, reach n |
| `LocalityAware.LocalityAwareLoadBalancer.SelectServer` | src/rpc_proto/locality_aware_load_balancer.cc:125-182 | the same for the whole operation, in at most n searches of at most depth steps, whatever the dice; the call is counted at the chosen server only, weights change by being refreshed only, those without any feedback not at all, and the invariant and the accounts are kept |
| `LocalityAware.LocalityAwareLoadBalancer.AddAndSelect` | src/rpc_proto/locality_aware_load_balancer.cc:33-44 | a server just added keeps its initial weight through any number of selections until its first feedback |
| `Selections.HitsByInterval` | src/rpc_proto/locality_aware_load_balancer.cc:138-173 | of the node whose in-order interval the dice falls into: it is taken if and only if the dice less all that comes before it is at most its refreshed weight |
| `Selections.EarlierThrowsMissed` | src/rpc_proto/locality_aware_load_balancer.cc:135-181 | each throw before the last missed, against the weights that the one before it left |
| `Selections.FirstDiceDecides` | src/rpc_proto/locality_aware_load_balancer.cc:135-181 | if refreshing changes no weight, all dice before the last were the total, and the last one decides by the plain search |
| `Selections.RefreshedIsFair` | src/rpc_proto/locality_aware_load_balancer.cc:184-215 | a refreshed weight is what the mean age of the calls in flight there demands |
| `LocalityAware.LocalityAwareLoadBalancer.Feedback` | src/rpc_proto/locality_aware_load_balancer.cc:329-347 | the invariant is kept, an unknown server is ignored, only the named weight changes, to what the rate and the mean latency of its window demand, and the accounts stay in order if and only if the call was outstanding there |
| `LocalityAware.LocalityAwareLoadBalancer.FeedbackAfterReplacement` | src/rpc_proto/locality_aware_load_balancer.cc:329-347 | the feedback of a call to a server that was removed and added again leaves the new weight with no call outstanding and -1 calls inflight |
| `LocalityAware.LocalityAwareLoadBalancer.EverythingFitsInt64` | src/rpc_proto/locality_aware_load_balancer.cc:7-11 | with at most 72 servers every weight, counter and the total fit 64 bits |
| `LocalityAware.LocalityAwareLoadBalancer.HalfRemovedFitsInt64` | src/rpc_proto/locality_aware_load_balancer.cc:53-77 | the same between the two applications of Remove, while one server counts twice |
| `WeightedRandom.SelectServer` | src/rpc_proto/weighted_random_load_balancer.cc:125-170 | fails if and only if each of n draws is the total; otherwise the first other draw decides by the plain search |
| `WeightedRandom.WeightsStayEqual` | src/rpc_proto/weighted_random_load_balancer.cc:31-45 | in every history of additions and removals all weights equal the scale |
| `WeightedRandom.ServersAreBalance` | src/rpc_proto/weighted_random_load_balancer.cc:31-92 | there are as many weights as additions less removals |
| `WeightedRandom.SelectionIsUniform` | src/rpc_proto/weighted_random_load_balancer.cc:125-170 | every server is reached by the same number of dice, the leftmost by one fewer |
| `WeightedRandom.SingleServerMisses` | src/rpc_proto/weighted_random_load_balancer.cc:145-163 | with one server exactly one dice fails |
| `ServerLists.LessTotal` | include/rpc_proto/name_service.h:19-21 | the order of server names is total and irreflexive |
| `ServerLists.SortSorts` | src/rpc_proto/zk_naming_service.cc:75-76 | sorting gives a sorted permutation |
| `ServerLists.SetDifferenceIsDifference` | src/rpc_proto/zk_naming_service.cc:77-82 | set difference of sorted lists is the difference of multisets |
| `ServerLists.RemoveOneRemoves` | src/rpc_proto/zk_naming_service.cc:107-111 | find, swap with the back and pop take out one occurrence |
| `NamingService.GetServers` | src/rpc_proto/zk_naming_service.cc:30-47 | each child once, in order of first occurrence |
| `NamingService.ReplayOnSame` | src/rpc_proto/zk_naming_service.cc:77-87 | the difference, applied to the list it was computed from, gives the new list |
| `NamingService.ReplayOnOther` | src/rpc_proto/zk_naming_service.cc:67-68 | for exactly which other lists it does so too |
| `NamingService.BalancerFollows` | include/rpc_proto/zk_naming_service.h:25-33 | for exactly which lists the balancer ends up with the new servers |
| `NamingService.NameServiceAction.constructor` | include/rpc_proto/zk_naming_service.h:15-24 | empty lists, nothing pending; reconciled with the balancer if and only if that has no servers yet |
| `NamingService.NameServiceAction.AddServers` | src/rpc_proto/zk_naming_service.cc:97-103 | the additions are appended |
| `NamingService.NameServiceAction.RemoveServers` | src/rpc_proto/zk_naming_service.cc:105-113 | the removals are taken out, as often as they are listed |
| `NamingService.NameServiceAction.LoadBalancerReset` | include/rpc_proto/zk_naming_service.h:25-33 | the balancer gains the additions, then loses the removals, and stays valid |
| `NamingService.NameServiceAction.Diff` | src/rpc_proto/zk_naming_service.cc:75-82 | both differences of the sorted lists |
| `NamingService.NameServiceAction.Compare` | src/rpc_proto/zk_naming_service.cc:73-89 | the first application: new list, difference and balancer, pending exactly if the lists differ |
| `NamingService.NameServiceAction.ResetFn` | src/rpc_proto/zk_naming_service.cc:64-91 | which application it is, and what each does |
| `NamingService.NameServiceAction.ResetServers` | src/rpc_proto/zk_naming_service.cc:93-95 | both buffers end up with the new list whatever their order, and from lists without duplicates the balancer with exactly the new servers |
| `ProtobufWire.VarintRoundTrip` | src/rpc_proto/rpcheader.pb.cc:311-313 | reading undoes writing for every number that fits, in front of anything |
| `ProtobufWire.VarintValue` | src/rpc_proto/rpcheader.pb.cc:311-313 | a number is written as its groups of seven bits, the lowest first, with the top bit set in all bytes but the last |
| `ProtobufWire.GroupsRead` | src/rpc_proto/rpcheader.pb.cc:255-258 | a varint of any bytes is read as the number its groups make up, or refused if it is too long |
| `ProtobufWire.VarintSize32IsLength` | src/rpc_proto/rpcheader.pb.cc:377-380 | the computed size of a 32-bit varint is its length |
| `ProtobufWire.Int32RoundTrip` | src/rpc_proto/rpc_response_header.pb.cc:269-275 | the same for sign-extended 32-bit numbers |
| `ProtobufWire.Int32SizeIsLength` | src/rpc_proto/rpc_response_header.pb.cc:386-389 | a negative number takes ten bytes, the others their varint size |
| `ProtobufWire.StringRoundTrip` | src/rpc_proto/rpcheader.pb.cc:225-229 | reading a length-delimited record gives it back |
| `ProtobufWire.Utf8Iff` | src/rpc_proto/rpcheader.pb.cc:227-230 | the accepted strings are exactly the UTF-8 encodings of sequences of scalar values |
| `ProtobufWire.LittleEndianRoundTrip` | src/rpc_proto/rpc_client_stub.cc:49-50 | the size word is read back as written |
| `ProtobufWire.LittleEndianBytes` | src/rpc_proto/rpc_client_stub.cc:49-50 | byte i of the size word is the digit of 256 to the power of i |
| `ProtobufWire.LittleEndianLaw` | src/rpc_proto/rpc_client_stub.cc:49-50 | the first byte is the lowest, and the others are those of what remains |
| `ProtobufWire.FromLittleEndianLaw` | src/rpc_proto/rpc_server_stub.cc:67-68 | the same for reading |
| `RpcHeaders.ParseEncodedRequest` | src/rpc_proto/rpcheader.pb.cc:211-286 | parsing a serialised header merges it into what is there and goes on behind it; a name that is not UTF-8 stops it |
| `RpcHeaders.RequestRoundTrip` | src/rpc_proto/rpcheader.pb.cc:211-320 | parsing undoes serialising if and only if both names are UTF-8 |
| `RpcHeaders.RequestFields` | src/rpc_proto/rpcheader.pb.cc:288-320 | as fields of a message, whatever its type: service name 1, method name 2, size of the arguments 3, defaults left out |
| `RpcHeaders.UnknownFieldIgnored` | src/rpc_proto/rpcheader.pb.cc:266-277 | a field with another number is skipped whole, whatever its wire type, groups aside |
| `RpcHeaders.RequestSizeIsLength` | src/rpc_proto/rpcheader.pb.cc:359-389 | `ByteSizeLong` is the produced length |
| `RpcHeaders.ParseEncodedResponse` | src/rpc_proto/rpc_response_header.pb.cc:229-303 | the same merge for the response header |
| `RpcHeaders.ResponseRoundTrip` | src/rpc_proto/rpc_response_header.pb.cc:229-334 | parsing undoes serialising if and only if the message is UTF-8 |
| `RpcHeaders.ResponseFields` | src/rpc_proto/rpc_response_header.pb.cc:305-334 | status 1, message 2, size of the result 3, negative numbers as 64-bit ones |
| `RpcHeaders.ResponseSizeIsLength` | src/rpc_proto/rpc_response_header.pb.cc:367-396 | `ByteSizeLong` is the produced length |
| `RpcHeaders.RpcHeader.MergeFromStream` | src/rpc_proto/rpcheader.pb.cc:211-286 | the parse loop sets the fields as the parse function does, on every input |
| `RpcHeaders.RpcHeader.SerializeToString` | src/rpc_proto/rpcheader.pb.cc:288-320 | the bytes of the encoding function |
| `RpcHeaders.RpcHeader.ByteSizeLong` | src/rpc_proto/rpcheader.pb.cc:359-389 | the number of bytes that serialising produces |
| `RpcHeaders.RpcResponseHeader.MergeFromStream` | src/rpc_proto/rpc_response_header.pb.cc:229-303 | the parse loop sets the fields as the parse function does, on every input |
| `RpcHeaders.RpcResponseHeader.SerializeToString` | src/rpc_proto/rpc_response_header.pb.cc:305-334 | the bytes of the encoding function |
| `RpcHeaders.RpcResponseHeader.ByteSizeLong` | src/rpc_proto/rpc_response_header.pb.cc:367-396 | the number of bytes that serialising produces |
| `RpcFrame.RpcServerStub.RegisterService` | src/rpc_proto/rpc_server_stub.cc:53-64 | the method is found afterwards, no other changes, and a method without a name is refused |
| `RpcFrame.RpcServerStub.ProcessRequest` | src/rpc_proto/rpc_server_stub.cc:66-111 | what every request is answered with, and when the standard library throws |
| `RpcFrame.EncodeCall` | src/rpc_proto/rpc_client_stub.cc:42-51 | the request frame; its first four bytes are the digits of the header size to the base 256, the lowest first, so a header of fewer than 256 bytes gives `[size, 0, 0, 0]` |
| `RpcFrame.FrameHasSize` | src/rpc_proto/rpc_server_stub.cc:104-109 | the same for every frame, those of the server included |
| `RpcFrame.SizeIsRead` | src/rpc_proto/rpc_server_stub.cc:67-68 | either side reads a size from a frame if and only if the first four bytes are its digits, the lowest first |
| `RpcFrame.DecodeReply` | src/rpc_proto/rpc_client_stub.cc:54-62 | header and body of the response, unless the sizes lead out of the buffer |
| `RpcFrame.ServerSees` | src/rpc_proto/rpc_server_stub.cc:66-103 | the server answers a request frame as the call demands |
| `RpcFrame.ClientSees` | src/rpc_proto/rpc_client_stub.cc:54-62 | the client gets back the header the server framed, and of the body what its buffer has room for |
| `RpcFrame.Call` | src/rpc_proto/rpc_client_stub.cc:21-67 | a call from end to end, for all names, arguments and callbacks: the expected answer if it fits the buffer; for UTF-8 names success with the result of a registered callback, otherwise an error without a body whose message says whether the service or the method is missing |
| `MemPool.BlocksApart` | include/mempool.h:84-91 | two blocks of any chunks do not overlap |
| `MemPool.BlockClearOfHeaders` | include/mempool.h:76-84 | no block reaches into the header of a chunk |
| `MemPool.LiveIsAlone` | include/mempool.h:68-109 | a live block overlaps no other live or free block and no header |
| `MemPool.Pool.constructor` | include/mempool.h:26-37 | an empty pool with blocks of at least a pointer |
| `MemPool.Pool.Thread` | include/mempool.h:78-91 | the new chunk is linked in front, and its blocks are threaded onto the free list, the last one first |
| `MemPool.Pool.AllocAMemBlock` | include/mempool.h:68-97 | a block that was not live, from the free list or a new chunk; the invariant is kept |
| `MemPool.Pool.FreeAMemBlock` | include/mempool.h:99-109 | a live block becomes the head of the free list; null changes nothing |
| `MemPool.Pool.ClientWrite` | include/mempool.h:9-16 | writing all of a live block damages no list |
| `MemPool.Pool.BlocksAreConserved` | include/mempool.h:74-92 | live and free blocks are 40k + k(k - 1)/2 after k chunks |
| `MemPool.Pool.Destroy` | include/mempool.h:57-66 | every chunk is given back exactly once |
| `Processor.RunInv` | src/processor.cc:69-89 | taken, then running queue, then other queue is what was pushed, in every state of every run |
| `Processor.TakenInPushOrder` | src/processor.cc:142-162 | each pushed coroutine is taken at most once and in push order across swaps |
| `Processor.PopAndPushNeverMeet` | src/processor.cc:144-155 | the loop never pops from the queue that producers push to, so the two steps commute |
| `Processor.RoundTakesWhatItFound` | src/processor.cc:144-162 | a round takes exactly what had been pushed when it began |
| `Calendar.YearInPeriod` | src/mstime.cc:39-52 | the year loop ends inside the four-year period, with the hours of the year left over |
| `Calendar.YearOf` | src/mstime.cc:36-52 | year and hour of the year, up to the periods lost to the 32-bit hour count |
| `Calendar.MonthAndDay` | src/mstime.cc:54-77 | month and day of a day of the year, 29 February included |
| `Calendar.ToLocalTime` | src/mstime.cc:21-80 | always a valid date; its seconds are the given second less the time zone while the hour count fits 32 bits, and that less the lost periods beyond; up to the epoch it is 1 January 1970, 00:00:00 |
| `Calendar.NothingLost` | src/mstime.cc:36 | nothing is lost if and only if the hour count fits 32 bits |
| `Calendar.SecondsDetermineDate` | src/mstime.cc:21-80 | no two valid dates have the same seconds |
| `Calendar.AgreesWithPosixUntil2100` | src/mstime.cc:42-71 | valid in the Gregorian calendar and equal to the POSIX formula if and only if before 1 March 2100 |

## Left out

- Sockets, epoll, timers, context switching, ZooKeeper calls and logging: input and output.
- Descent while a modification is under way: the left branch of the search has no bounds check there, and a
  counter may count a position the reader's buffer lacks; the searches here run in quiescent states.
- `getRand` of 0: a selection with no servers is undefined in the source, so `SelectServer` has a precondition.
- Feedback with an error code: that branch is unfinished in the source; every feedback here is a success. The
  status the client passes is the one from before the response was parsed.
- `MarkFailed`, the batch additions and removals, `WithFg0`, `WithFg1` and `RemoveWrapper`: without callers, or empty.
- Weak memory order and reads nested in one thread: steps are sequentially consistent, one scope per key.
- ConcurrentTreeTheorems.CountersExactUpToPending: is about runs in which no server starts with weight 0, and in
  which modifications begin in the order of the outer map; `ConcurrentTreeStarts` and `OuterMap` say what happens
  otherwise, each on its own.
- ConcurrentTreeBounds.TotalBounds: is about unbounded integers, so that an overflow shows as a number that does not
  fit; a run does not wrap and go on. Readers may set any weight from the minimum on; which one latencies and
  inflight numbers give is in `Weights`. Servers are taken to start within the bounds, as they do with one thread.
- ConcurrentTreeBounds.CounterBounds: says nothing about counters during a Remove; `ConcurrentTreeRemovals` does.
- ConcurrentTreeBounds.CounterFitsInt64: the same.
- ConcurrentTreeBounds.QuietLeftsFitInt64: is about quiet states; `CounterFitsInt64` and `ConcurrentTreeRemovals` are
  about the others.
- ConcurrentTreeTotals.FitsThroughoutIff: is about two or more positions; for one, `TotalFitsInt64` gives one direction.
- Weights.Weight.Update: does not wrap the running sum of latencies and the sum of begin times at 64 bits, nor the
  count of begin times at 32; `BeginTimeSumFits` says when the second fits.
- LocalityAware.LocalityAwareLoadBalancer.Search: keeps to vectors, the loop guard is the vector's length where the
  source reads on; the proof shows that the left child exists.
- WeightedRandom.SelectServer: takes the numbers drawn as a parameter. The feedback of this balancer changes no weight
  and its selection counts no call, so its inflight numbers mean nothing and are not modelled.
- NamingService.NameServiceAction.ResetServers: runs as one thread; the general protocol is in `DoubleBufferRefinement`.
  The map from service and method to action is not modelled.
- RpcHeaders.ParseEncodedRequest: a header after a failed parse keeps what had been read. The Protocol Buffers runtime
  is not part of the repository; its reading of varints and unknown fields follows the Encoding specification.
- RpcFrame.RpcServerStub.ProcessRequest: reads whole frames, one per read, and does not model the out-of-bounds read of
  a frame shorter than four bytes beyond the exception that follows.
- RpcFrame.Call: does not say what is read when the sizes lead out of the client's 4096 bytes.
- MemPool.Pool.AllocAMemBlock: takes the address malloc returns as a parameter; malloc never fails.
- Processor: blocked coroutines, timers and event wake-ups are not modelled, and no liveness is claimed.
- Calendar.ToLocalTime: sets the six fields the source sets and no others.
