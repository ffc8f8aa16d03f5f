# Maiter, verified

Maiter runs graph algorithms by asynchronous delta accumulation: every vertex has a value and a
pending delta; a worker folds the delta into the value, computes deltas for the out-neighbours,
resets its own delta and sends the results, in any order and at any time. This project models the
engine, the master that schedules it, the tables and stores under it and the file formats it reads,
and proves what each of them is for.

* **Protocol** (`DeltaMonoid`, `Protocol`, `Refinement`, `Runs`, `GlobalTable`, `Barrier`). A cluster
  of N workers, where a delta can be in a row's F1, in an output vector, in a sender's combining
  buffer or in a PUT on the network. Runs are arbitrary sequences of the four steps (process a key,
  emit one output, send a buffer, deliver any PUT, in any order). `Residual` combines the deltas of a
  key over all four places; the cluster refines a one-table machine in which only processing does
  anything. `GlobalTable` holds the imperative code, each method proved to perform such a sequence of
  steps.
* **Kernels** (`PageRank`, `ShortestPath`, `Components`). The answers, under every schedule.
* **Convergence** (`Rounds`, `PageRankRounds`, `ShortestPathRounds`, `ComponentsRounds`, `Standstill`).
  A round is any schedule between two drained states that processes every key at least once. How much
  each round achieves, that rounds always exist, and when nothing at all can be left pending.
* **Master** (`Schedule`, `Balance`, `StealCost`, `Master`). Shard assignment, dispatch, reaping,
  stealing and the barrier loop, from run to run.
* **Tables** (`OpenAddressing`, `DeltaTable`, `StateTable`, `Shard`). The two open-addressing tables
  refine finite maps, and a scan of the state table is a run of the protocol.
* **Store** (`LinkedList`, `Recency`, `LruCache`, `HotCache`, `Store`). A pointer-based LRU cache, the
  hot-aware cache, and the adjacency store behind it.
* **WebGraph** (`BitCodes`, `BitReader`, `SuccessorCodes`, `SuccessorDecoder`, `GraphReader`). The
  BVGraph decoder, from the shifted byte buffer up to whole graphs, against an encoder.
* **Record files** (`RecordFile`). Length-prefixed chunks over compressed blocks.

`dafny verify dfyconfig.toml` checks everything.

## Where the code and its description differ

* `con_component` sends the value, not the delta, so around a cycle with a positive value something is
  always on its way. Some schedule reaches a state without any residual if and only if no cycle is
  reached by a positive id (`Standstill.RestsWithoutLitCycle`; two vertices that point at each other
  are the example). The results about its answers therefore ask for less: that no pending delta would
  change a value (`Components.Stable`), which every graph reaches (`ComponentsRounds.RoundsSettle`).
  Shortest path uses the same notion, and is exact then for weights of any sign.
* `StateTable::put` tests `entries_ > size_`, so a table that is exactly full does not grow: the new
  row replaces the row in the key's home bucket, and from then on the count is one too high and the
  table grows in time. `StateTable.Put` states exactly when a row is lost, and `PutAll` that a table
  never loses more than one. `LoadShard` proves that the preallocated size is enough.
* `nat2int` is injective on all 32-bit arguments except 2^32 - 1, which wraps to 0 (`NatRoundTrip`).
* A shard listed twice in a run is one task but counted twice. All tasks are finished all the same, but
  then nothing runs and the barrier polls forever: it ends if and only if no shard is listed twice
  (`Master.Run`, `RepetitionNeverEnds`; the list [0, 0] is the example).
* Re-inserting a key into the LRU cache keeps the old value (`Recency.ValuesStay`).

## Model

| member | source | states |
|---|---|---|
| `Protocol.StepOk` | src/kernel/global-table.h:427-450 | every step keeps the cluster well-formed: rows at the owner's shard only, every buffer and PUT addressed to the owner of its keys |
| `Protocol.RunConcat` | src/kernel/kernel.h:400-434 | schedules compose: running one after the other is running their concatenation |
| `Refinement.EmitKeeps` | src/kernel/kernel.h:388-397 | moving an output into the local row or a remote buffer leaves every key's combined delta unchanged |
| `Refinement.SendKeeps` | src/kernel/global-table.cc:198-236 | turning a buffer into a PUT, listed in any order, leaves every key's combined delta unchanged |
| `Refinement.DeliverKeeps` | src/kernel/global-table.h:252-274 | delivering any PUT of the network, not just the oldest, leaves every key's combined delta unchanged |
| `Refinement.ProcessChanges` | src/kernel/kernel.h:377-386 | processing is the only step that changes combined deltas: the key keeps what was not in F1, and every key gains exactly what the kernel put out for it |
| `Refinement.QuietStep` | src/kernel/global-table.h:427-450 | emit, send and deliver do not change the one-table view at all |
| `Refinement.ProcessStep` | src/kernel/kernel.h:377-398 | processing a key is one step of the one-table machine, consuming the part of the delta that is in F1 |
| `Refinement.ProcessValues` | src/kernel/kernel.h:379-381 | processing changes the value of the processed key only, by its F1 |
| `Runs.StepHolds` | src/kernel/kernel.h:377-398 | a per-delta property closed under accumulate and g holds of every delta anywhere after every step |
| `Runs.ResidualHolds` | src/kernel/global-table.h:252-274 | and hence of every key's combined delta |
| `Runs.RunInvariant` | src/kernel/kernel.h:400-434 | any invariant of the one-table machine holds after every schedule of the cluster |
| `Runs.InitialAbs` | src/kernel/kernel.h:331-346 | the loaded cluster is the initial one-table state |
| `PageRank.GFunc` | src/examples/pagerank.cc:58-65 | one equal share of 0.8 delta for each out-link, in order |
| `PageRank.JobValid` | src/examples/pagerank.cc:42-69 | addition with zero is a lawful accumulation, and outputs go to vertices only |
| `PageRank.TotalEdge` | src/examples/pagerank.cc:58-65 | the shares of a vertex with out-links add up to 0.8 of its delta, with parallel links counted |
| `PageRank.EveryRunBalanced` | src/examples/pagerank.cc:42-65 | after every schedule v[j] + residual[j] = 0.2 + inflow of 0.8 v[i]/deg(i), and nothing anywhere is negative |
| `PageRank.EveryRunBelow` | src/examples/pagerank.cc:42-65 | after every schedule v is below every non-negative solution of the PageRank equation |
| `PageRank.Conservation` | src/examples/pagerank.cc:42-65 | mass conservation for every balanced table |
| `PageRank.EveryRunConservesMass` | src/kernel/kernel.h:377-398 | 0.2 sum(v) + 0.8 sum(v of dangling vertices) + total residual = 0.2 n after every schedule, so 0 <= sum(v) <= n |
| `PageRank.ErrorBound` | src/examples/pagerank.cc:42-65 | a balanced table below a solution misses at most five times its total residual |
| `PageRank.EveryRunErrorBound` | src/kernel/kernel.h:377-398 | so the total error after any schedule is at most five times the total residual |
| `PageRank.QuiescentRunSolves` | src/kernel/kernel.h:377-398 | when all residuals are zero, v is the one non-negative solution |
| `ShortestPath.GFunc` | src/examples/shortestpath.cc:63-69 | one relaxation for each link, in order |
| `ShortestPath.JobValid` | src/examples/shortestpath.cc:44-74 | minimum with infinity is a lawful accumulation |
| `ShortestPath.EveryRunRelaxed` | src/examples/shortestpath.cc:44-69 | every finite distance anywhere is the length of a real walk, and min(v[j], residual[j]) <= v[i] + w on every edge, after every schedule |
| `ShortestPath.StableTableIsExact` | src/examples/shortestpath.cc:44-69 | a stable table with these properties holds exact distances, infinity exactly for unreachable vertices |
| `ShortestPath.StableRunIsExact` | src/kernel/kernel.h:377-398 | a stable cluster has the exact distances, whatever the schedule |
| `ShortestPath.StableForever` | src/kernel/kernel.h:377-398 | once stable, no continuation changes a value or ends stability |
| `Components.GFunc` | src/examples/con_component.cc:49-55 | the value, not the delta, to each out-link, in order |
| `Components.EveryRunSpreading` | src/examples/con_component.cc:32-55 | every id anywhere belongs to a vertex that reaches its key, and each value has spread along every edge, after every schedule |
| `Components.StableTableIsExact` | src/examples/con_component.cc:32-55 | a stable table holds the largest id that reaches each vertex |
| `Components.StableRunIsExact` | src/kernel/kernel.h:377-398 | so does a stable cluster, whatever the schedule |
| `Components.NeverLowers` | src/examples/con_component.cc:41-43 | no step of any schedule lowers a value |
| `Components.EveryRunChangesBounded` | src/kernel/kernel.h:377-398 | at most top * n steps of any schedule change a value |
| `Rounds.StepFurther` | src/kernel/kernel.h:377-398 | no step takes a row back, and processing a key folds its F1 into its value |
| `Rounds.RoundFolds` | src/kernel/kernel.h:400-434 | from a drained state, any schedule that processes every key brings each value up to value and residual together |
| `Rounds.SomeRound` | src/kernel/kernel.h:400-434 | from every drained state there is such a schedule, and it ends drained |
| `Rounds.ProcessAndSettle` | src/kernel/kernel.h:377-398 | from a drained state one key can be processed and all its outputs delivered: one table step that consumes the whole residual |
| `PageRankRounds.RoundShrinks` | src/examples/pagerank.cc:42-65 | from any reachable drained state, any schedule that processes every key leaves at most 0.8 of the total residual |
| `PageRankRounds.RoundsShrink` | src/examples/pagerank.cc:42-65 | after r rounds from the start the total residual is at most 0.2 n 0.8^r |
| `PageRankRounds.ErrorAfterRounds` | src/examples/pagerank.cc:42-65 | convergence: after r rounds the values are below every solution and miss it by at most n 0.8^r in total |
| `PageRankRounds.SomeConvergingRun` | src/kernel/kernel.h:400-434 | there is such a run for every r |
| `ShortestPathRounds.ShortWalk` | src/examples/shortestpath.cc:63-69 | with non-negative weights a walk of fewer hops than vertices is as short as any |
| `ShortestPathRounds.RoundLowers` | src/kernel/kernel.h:377-398 | a round brings every value down to value and residual together |
| `ShortestPathRounds.RoundsSettle` | src/examples/shortestpath.cc:44-69 | with non-negative weights, as many rounds as there are vertices reach a stable state with the exact distances |
| `ComponentsRounds.RoundsSettle` | src/examples/con_component.cc:32-55 | as many rounds as there are vertices reach a stable state with the largest id reaching each vertex |
| `Standstill.EveryRunLayered` | src/examples/con_component.cc:49-55 | after every schedule, the edges with a positive source and nothing pending at the target can be ranked |
| `Standstill.LitCycleNeverRests` | src/examples/con_component.cc:49-55 | if a positive id reaches a cycle, something is pending in every reachable state |
| `Standstill.RankedPass` | src/kernel/kernel.h:377-398 | one pass in topological order of the vertices reached by positive ids leaves no residual |
| `Standstill.RestsWithoutLitCycle` | src/examples/con_component.cc:32-55 | some schedule leaves no residual if and only if no cycle is reached by a positive id |
| `Standstill.TwoCycleNeverRests` | src/examples/con_component.cc:49-55 | the smallest example of such a cycle |
| `GlobalTable.Serialize` | src/kernel/deltatable.h:185-197 | the PUT lists every buffered pair exactly once |
| `GlobalTable.Table.AccumulateF2` | src/kernel/global-table.h:452-468 | folds into the value of a local key, and does nothing for a remote one |
| `GlobalTable.Table.UpdateF1` | src/kernel/global-table.h:361-378 | overwrites the delta of a local row, or the buffered delta of a remote key; the periodic request handling after it is a step of RunIter |
| `GlobalTable.Table.SendShard` | src/kernel/global-table.cc:203-225 | empties one buffer and is a run of the protocol without processing |
| `GlobalTable.Table.SendUpdates` | src/kernel/global-table.cc:198-236 | empties all remote buffers, resets the counter, and is a run without processing |
| `GlobalTable.Table.AccumulateF1` | src/kernel/global-table.h:426-450 | local or buffered, with the flush exactly when the counter passes the limit; a run without processing |
| `GlobalTable.Table.ApplyUpdates` | src/kernel/global-table.h:252-274 | accumulates all pairs of a PUT, all local: no buffer, no counter and no remote delta is touched |
| `GlobalTable.Table.HandlePutRequests` | src/worker/worker.cc:338-368 | applies the PUTs that were read, standing anywhere in the network and in any order, as a run of deliveries; exactly those leave the network |
| `GlobalTable.TakenRest` | src/worker/worker.cc:342-352 | what was read and what is left on the network are all there was |
| `GlobalTable.Table.ProcessDelta` | src/kernel/kernel.h:377-386 | the first half of run_iter is one process step |
| `GlobalTable.Table.EmitOne` | src/kernel/kernel.h:390-395 | one turn of the output loop is an emit, with the sends it may trigger |
| `GlobalTable.Table.EmitOutputs` | src/kernel/kernel.h:388-397 | the loop emits every output and leaves the vector empty |
| `GlobalTable.Table.RunIter` | src/kernel/kernel.h:377-398 | run_iter, with the requests handled in it read from anywhere in the network in any order, is a run of the protocol that processes exactly the one key |
| `Barrier.DrainedResidual` | src/master/master.cc:878-884 | with kernels idle and nothing buffered or in flight, a key's combined delta is its owner's F1 |
| `Barrier.AfterBarrier` | src/master/master.cc:878-884 | whatever the order of flushes and deliveries, once drained every F1 holds the combined delta from before and no value has changed |
| `Barrier.DeliverOnlyApplies` | src/worker/worker.cc:483-485 | applying creates no remote delta and shrinks the network |
| `Barrier.FlushRound` | src/worker/worker.cc:456-469 | after the flush round all buffers are empty |
| `Barrier.ApplyRound` | src/worker/worker.cc:338-368 | after the apply round the network is empty too, each PUT applied once |
| `Barrier.Synchronize` | src/master/master.cc:878-884 | both rounds: drained, every combined delta in its owner's F1, values unchanged |
| `Schedule.LaunchKeeps` | src/master/master.cc:194-212 | starting a pending task at an idle worker keeps the invariants, and it was not started before |
| `Schedule.ReapedIsActive` | src/master/master.cc:152-157 | a reported task is active at the reporting worker and not reported before, so the two CHECKs hold |
| `Schedule.FinishKeeps` | src/master/master.cc:682-730 | finishing a running task keeps the invariants |
| `Schedule.StealKeeps` | src/master/master.cc:616-626 | moving a pending, never stolen task keeps service, placement, counting and the record of steals, and stales owner views of that shard number only |
| `Schedule.OneServer` | src/master/master.cc:122-134 | every (table, shard) is served by exactly one worker, and equal shard numbers are together |
| `Schedule.RunningAtOwner` | src/worker/worker.cc:121-124 | a worker running a shard believes itself its owner: the abort is unreachable |
| `Schedule.RunningStaysSafe` | src/worker/worker.cc:121-124 | so do all running tasks while steals of other shards are not announced yet |
| `Schedule.PendingNotRunning` | src/master/master.cc:587-592 | what may be stolen is not running anywhere |
| `Schedule.NoStall` | src/master/master.cc:811-834 | at the loop head, if some task is not finished then some task is running |
| `Schedule.AllDone` | src/master/master.cc:743-744 | when as many are finished as there are tasks, every task was started and finished once and nothing runs |
| `Schedule.RunningMeansUnfinished` | src/master/master.cc:811-834 | at the loop head something is running exactly while some task is not finished |
| `Schedule.StealsBounded` | src/master/master.cc:589-592 | in a run there are at most as many steals as tasks |
| `Master.Master.AssignShard` | src/master/master.cc:122-134 | exactly the column of that shard number over all tables is added or removed |
| `Master.Master.WorkerForShard` | src/master/master.cc:515-521 | a server of the shard, and none only if there is none |
| `Master.Master.LeastLoaded` | src/master/master.cc:533-544 | the first of the alive workers that serve the fewest shards |
| `Master.Master.AssignWorker` | src/master/master.cc:523-550 | a task goes to the server of its shard; an unserved shard number goes, for all tables, to the first of the least loaded alive workers; nothing else moves |
| `Master.Master.AssignTables` | src/master/master.cc:629-639 | afterwards every shard of every table has one server; from none, with equally many shards in all tables, the loads of the alive workers differ by at most one |
| `Balance.EvenStep` | src/master/master.cc:533-548 | giving the next shard number to a least loaded worker keeps the loads of the alive workers within one of each other |
| `Balance.EvenShare` | src/master/master.cc:629-639 | then every alive worker has the average number of shard numbers, rounded up or down |
| `Balance.OneEach` | src/kernel/kernel.h:542-550 | as many shards as alive workers: each serves exactly one |
| `Master.Master.HandleShardAssignment` | src/worker/worker.cc:425-453 | the named shards get the named owner, other entries and other workers' views stay |
| `Master.Master.SendTableAssignments` | src/master/master.cc:552-567 | afterwards all workers' owner views are right |
| `Master.Master.AssignTasks` | src/master/master.cc:641-650 | for any list, repetitions included: one pending task, of the size of its shard and not stolen, for each shard in it, at the shard server, without moving any shard |
| `Master.Master.GetNext` | src/master/master.cc:194-212 | some pending task becomes active and its request goes out |
| `Master.Master.DispatchWork` | src/master/master.cc:652-667 | counts what it starts, and then no worker has a pending and no active task |
| `Master.Master.SetFinished` | src/master/master.cc:152-157 | this one task, and nothing else, becomes finished |
| `Master.Master.ReapOneTask` | src/master/master.cc:682-730 | -1 and nothing changed when the poll finds no message, which is always so when nothing runs; else one running task is finished |
| `Master.Master.MostPending` | src/master/master.cc:581-585 | the first of the workers with the most pending tasks |
| `Master.Master.StealWork` | src/master/master.cc:569-627 | with a positive average, a task moves if and only if stealing is on, the thief is alive, the first worker with the most pending tasks has one, the one picked was never stolen, and the move pays; else nothing changes; the invariants hold either way |
| `StealCost.WorthMoving` | src/master/master.cc:594-614 | true exactly when the times of the pending tasks, none counted below an average one, exceed twice the time of the one to move |
| `StealCost.LargeTasks` | src/master/master.cc:601-614 | when no task is below the floor: exactly when the pending sizes together exceed twice the moved size |
| `StealCost.SmallTasks` | src/master/master.cc:601-614 | when no task is above the floor: exactly when there is more than one and their number times the average exceeds twice the moved size times the time |
| `StealCost.OnlyTask` | src/master/master.cc:601-614 | an only pending task is never worth moving |
| `StealCost.ThreeAlike` | src/master/master.cc:601-614 | three tasks of size 1 are worth a theft, two are not |
| `StealCost.ThreeAndTwo` | src/master/master.cc:601-614 | of tasks of sizes 3 and 2 the first is not worth moving |
| `Master.Master.NeverTheOnly` | src/master/master.cc:601-614 | a theft never takes the only pending task of a worker |
| `Master.Master.StealPass` | src/master/master.cc:841-867 | after the pass and its broadcast the invariants hold, no task was stolen twice, and all owner views are right again; if nothing was stolen, there was nothing promising for any idle worker |
| `Master.Master.AfterReap` | src/master/master.cc:835-873 | stealing and dispatching lead back to the loop-head invariant |
| `Master.Master.Turn` | src/master/master.cc:811-875 | one loop turn keeps the loop-head invariant; without a message, and always when nothing runs, it changes nothing |
| `Master.Master.Barrier` | src/master/master.cc:803-876 | whatever the polls, the order of completion and the steals, all tasks get finished; the loop condition is met then exactly if as many shards were listed as there are tasks |
| `Master.Master.Run` | src/master/master.cc:732-784 | for any list of shards: each shard in it is started once, stolen at most once and finished once; the barrier ends and the next run may start if and only if no shard is listed twice |
| `Master.TaskCount` | src/master/master.cc:641-650 | there are as many tasks as listed shards if and only if no shard is listed twice |
| `Master.RepetitionNeverEnds` | src/master/master.cc:811-834 | with a repetition no reachable loop head meets the exit condition, and once all tasks are finished nothing is left to reap; without one, something runs until the loop ends |
| `Master.ShardTwice` | src/master/master.cc:647-649 | shard 0 listed twice is one task, counted as two |
| `OpenAddressing.ContentsSpec` | src/kernel/deltatable.h:136-153 | without duplicate keys the buckets denote a map with one entry for each used bucket |
| `OpenAddressing.Home` | src/kernel/deltatable.h:132-134 | the start of a probe differs from the hash value by a multiple of the size |
| `OpenAddressing.MissedMeansAbsent` | src/kernel/deltatable.h:140-152 | a probe that meets a free bucket, or goes all the way round, proves absence |
| `OpenAddressing.BucketForKey` | src/kernel/deltatable.h:136-153 | -1 exactly for absent keys, else the key's bucket |
| `OpenAddressing.ProbeForPut` | src/kernel/deltatable.h:295-311 | the key's bucket, or a reachable free one, or the home bucket of a full table |
| `OpenAddressing.WriteBucket` | src/kernel/deltatable.h:319-327 | writing there is exactly a map update and keeps all keys reachable |
| `OpenAddressing.EntriesList` | src/kernel/deltatable.h:185-197 | the used buckets in order list the map, each key once |
| `DeltaTable.DeltaTable.constructor` | src/kernel/deltatable.h:163-169 | an empty map |
| `DeltaTable.DeltaTable.Resize` | src/kernel/deltatable.h:233-255 | the map and the entry count are unchanged, so the CHECK holds, for growing and shrinking; the recursion with put ends |
| `DeltaTable.DeltaTable.Put` | src/kernel/deltatable.h:293-328 | a map update, through any rehashing; the table grows to 2 size + 1 exactly when a new key finds it more than 0.8 full |
| `DeltaTable.DeltaTable.ContainsKey` | src/kernel/deltatable.h:257-260 | membership in the map |
| `DeltaTable.DeltaTable.Get` | src/kernel/deltatable.h:262-270 | the map's value |
| `DeltaTable.DeltaTable.Update` | src/kernel/deltatable.h:272-279 | a map update of a present key |
| `DeltaTable.DeltaTable.Accumulate` | src/kernel/deltatable.h:281-291 | combines with the present value, or inserts |
| `DeltaTable.DeltaTable.Clear` | src/kernel/deltatable.h:98-101 | the empty map |
| `DeltaTable.DeltaTable.Reset` | src/kernel/deltatable.h:103-108 | the empty map in one bucket |
| `DeltaTable.DeltaTable.SerializeToNet` | src/kernel/deltatable.h:185-197 | every entry exactly once |
| `DeltaTable.DeltaTable.Next` | src/kernel/deltatable.h:47-62 | moves to the next used bucket and skips no entry |
| `StateTable.StateTable.Put` | src/kernel/statetable.h:674-719 | for every state a table can get into: a map update if and only if the key is present or the table is not full by a right count; else exactly one other row is lost, after which the count stays one too high; it grows, losing nothing, exactly when a new key finds the count above the size |
| `StateTable.StateTable.Resize` | src/kernel/statetable.h:550-575 | rehashing into enough buckets loses no row and corrects the count |
| `StateTable.PutAll` | src/kernel/statetable.h:674-719 | whatever is put into a new table of any size, at most one of the keys is missing in the end |
| `StateTable.StateTable.AccumulateF1` | src/kernel/statetable.h:649-658 | combines into F1 of that row only |
| `StateTable.StateTable.AccumulateF2` | src/kernel/statetable.h:660-666 | combines into F2 of that row only |
| `StateTable.StateTable.UpdateF1` | src/kernel/statetable.h:620-629 | sets F1 of that row only |
| `StateTable.StateTable.VisitAll` | src/kernel/kernel.h:416-434 | the done/Next/break loop visits every key exactly once, although each visit changes rows, and the table ends as what those visits, one after the other, make of it |
| `StateTable.StateTable.VisitRow` | src/kernel/kernel.h:377-398 | F1 of the row is folded into F2 and reset, and each output for this table is accumulated into F1 of its key, in order; nothing else changes |
| `StateTable.StateTable.AccumulateLocal` | src/kernel/global-table.h:427-440 | one output: accumulated into F1 if its key is in the table, else nothing |
| `StateTable.StateTable.Next` | src/kernel/statetable.h:81-97 | moves to the next used bucket and skips no row |
| `StateTable.OverwriteBucket` | src/kernel/statetable.h:693-711 | what a put into a full table does: one row is lost, the rest stay reachable |
| `StateTable.ShardFits` | src/kernel/global-table.cc:50-56 | of the keys below n, at most n/s + 1 fall into a shard of key mod s |
| `StateTable.LoadShard` | src/kernel/kernel.h:331-346 | offered all keys of the input in any order, with repetitions, a shard of the preallocated size skips those of other shards and ends as the map of its own rows |
| `Shard.LoadedIsInitial` | src/kernel/table.h:147-152 | the rows a worker loads under key mod n are exactly those of the worker in the initial cluster of the protocol |
| `Shard.InitialFits` | src/kernel/global-table.cc:50-56 | with keys below N each worker of the protocol has at most N/n + 1 rows, as many as are preallocated |
| `Shard.EmitRow` | src/kernel/global-table.h:427-450 | an emit changes the rows of the worker as the table does: the local key is accumulated, a remote one leaves them alone |
| `Shard.VisitIsRun` | src/kernel/kernel.h:377-398 | a visit of a row of the state table is a run of the cluster: the process step of that key and the emits of its outputs |
| `Shard.ScanIsRun` | src/kernel/kernel.h:416-434 | a scan of the state table is a run of the cluster with one process step for each key visited, and changes nothing of the other workers |
| `LinkedList.Node.Unlink` | src/store/lrucache.h:43-52 | the neighbours point to each other, the node to nothing |
| `LinkedList.List.Pop` | src/store/lrucache.h:88-102 | the first node is taken off the chain |
| `LinkedList.List.Remove` | src/store/lrucache.h:104-114 | that node is taken off the chain, wherever it stands |
| `LinkedList.List.Push` | src/store/lrucache.h:116-129 | the node is appended to the chain |
| `LruCache.LruCache.Insert` | src/store/lrucache.h:159-172 | map and list hold the same nodes; a present key moves to the end with its old value, a new one is appended and the list pruned |
| `LruCache.LruCache.Get` | src/store/lrucache.h:174-184 | the stored value, moved to the end, or not found |
| `LruCache.LruCache.Remove` | src/store/lrucache.h:186-192 | a key is in the cache afterwards if and only if it was before and is not the removed one; the order of the others stays |
| `LruCache.LruCache.Contains` | src/store/lrucache.h:194-196 | membership |
| `LruCache.LruCache.Prune` | src/store/lrucache.h:212-226 | the oldest entries above the limit go, once the slack is used up |
| `LruCache.AgreeSize` | src/store/lrucache.h:212-215 | the map has as many keys as the list has nodes |
| `Recency.EveryHistoryByUse` | src/store/lrucache.h:159-192 | after every history the entries are in the order of their last uses, each key once |
| `Recency.EveryHistoryBounded` | src/store/lrucache.h:212-226 | after every history the size is at most maxSize, or below maxSize + elasticity when there is slack; the key just inserted is present and last |
| `Recency.ValuesStay` | src/store/lrucache.h:159-172 | no operation changes the value of a key that stays |
| `Recency.OthersStay` | src/store/lrucache.h:159-226 | no operation touches the entries with other keys or their order, unless an insertion reaches the limit plus the slack; then exactly the maxSize most recent entries stay |
| `Recency.KeyMoves` | src/store/lrucache.h:159-192 | a removed key is gone and the rest is left as it was; a key that is used comes last, with its old value |
| `Recency.RemovedOnly` | src/store/lrucache.h:186-192 | after a removal a key is present if and only if it was before and is not the removed one |
| `Recency.HoldsAnEnd` | src/store/lrucache.h:159-226 | after any insertions, with any slack, the cache holds the most recent keys in order, and at least maxSize of them if there are so many |
| `Recency.HoldsTheMostRecent` | src/store/lrucache.h:159-226 | after any insertions a cache without slack holds exactly the maxSize most recent keys, in order |
| `Recency.LargerHoldsMore` | src/store/lrucache.h:159-226 | so a larger cache holds whatever a smaller one does |
| `HotCache.Cache.Add` | src/store/cache.h:142-147 | all three structures gain the key, the pair behind all of at most its priority |
| `HotCache.Cache.ErasePair` | src/store/cache.h:150-161 | the search in the equal range finds the key's pair and takes out that one |
| `HotCache.Cache.UpdatePriority` | src/store/cache.h:149-167 | only the priority of the key changes, in both structures; its pair moves behind all of at most the new one |
| `HotCache.Cache.DeleteMin` | src/store/cache.h:169-182 | the first pair, a least one, goes from all three structures, exactly when it is more than 0.02 below |
| `HotCache.Cache.AddCache` | src/store/cache.h:184-200 | the four cases; the structures stay in step and within CACHE_SIZE; a replacement raises the total priority by more than 0.02 |
| `HotCache.FirstIsLeast` | src/store/cache.h:169-182 | the first pair of the ordered structure is a minimum of the stored priorities |
| `HotCache.InStepSize` | src/store/cache.h:142-200 | as many pairs as keys |
| `Store.Write` | src/store/writer.cpp:19-32 | prefix sums and concatenation |
| `Store.ReadBack` | src/store/reader.cpp:15-20 | slicing gives back each list written |
| `Store.SStore.GetData` | src/store/sstore.h:54-71 | the influential list, else the written list, whatever is cached; influential keys never enter the cache, and any other key that is hit, finds room or outdoes a stored one is cached with the request priority |
| `Store.Serve` | src/store/sstore.h:54-71 | the same for every sequence of requests |
| `BitCodes.FixedRoundTrip` | src/external/webgraph/webgraph.cc:149-158 | fixed-width numbers read back |
| `BitCodes.UnaryRoundTrip` | src/external/webgraph/webgraph.cc:140-147 | unary numbers read back, consuming exactly the codeword |
| `BitCodes.GammaRoundTrip` | src/external/webgraph/webgraph.cc:160-164 | gamma codes of all values that fit read back, consuming exactly the codeword |
| `BitCodes.ZetaRoundTrip` | src/external/webgraph/webgraph.cc:166-176 | so do zeta_k codes, for every k |
| `BitCodes.ZetaOneIsGamma` | src/external/webgraph/webgraph.cc:160-176 | zeta_1 and gamma are the same code and the same reader |
| `BitCodes.IntRoundTrip` | src/external/webgraph/webgraph.cc:450-455 | every integer that fits is hit by its own code |
| `BitCodes.NatRoundTrip` | src/external/webgraph/webgraph.cc:450-455 | nat2int is injective except at 2^32 - 1 |
| `BitReader.TopIsBinary` | src/external/webgraph/webgraph.cc:131-137 | repeated shifting yields the binary digits of a byte, most significant first |
| `BitReader.PopBit` | src/external/webgraph/webgraph.cc:131-137 | taking the top bit and shifting the byte in place pops the first unread bit of the buffer |
| `BitReader.BitReader.FillBuf` | src/external/webgraph/webgraph.cc:114-124 | any non-empty chunk leaves the unread bits the same; eof exactly at the end |
| `BitReader.BitReader.ReadBit` | src/external/webgraph/webgraph.cc:126-138 | the next bit of the byte stream, for every chunking, or 0 and eof |
| `BitReader.BitReader.ReadUnary` | src/external/webgraph/webgraph.cc:140-147 | reads unary on the bit stream |
| `BitReader.BitReader.ReadFixed` | src/external/webgraph/webgraph.cc:149-158 | reads fixed width on the bit stream |
| `BitReader.BitReader.ReadSGamma` | src/external/webgraph/webgraph.cc:160-164 | reads gamma on the bit stream |
| `BitReader.BitReader.ReadZeta` | src/external/webgraph/webgraph.cc:166-176 | reads zeta_k on the bit stream |
| `SuccessorCodes.EveryGraphHasACode` | src/external/webgraph/webgraph.cc:465-592 | every strictly ascending graph has a well-formed description, for all parameters: at least the one without references and intervals |
| `SuccessorCodes.CopiedSorted` | src/external/webgraph/webgraph.cc:507-519 | the copied part of a sorted list is sorted |
| `SuccessorCodes.ExpandedSorted` | src/external/webgraph/webgraph.cc:546-557 | the expanded intervals are sorted |
| `SuccessorDecoder.WrapSum` | src/external/webgraph/webgraph.cc:540-549 | the unsigned wrap-around of a negative first interval cancels out |
| `SuccessorDecoder.IncrementBlocks` | src/external/webgraph/webgraph.cc:499-502 | the block lengths as they were before encoding |
| `SuccessorDecoder.CopyBlocks` | src/external/webgraph/webgraph.cc:507-518 | exactly the alternate blocks of the referenced list, and its rest |
| `SuccessorDecoder.DecodeIntervals` | src/external/webgraph/webgraph.cc:539-557 | exactly the written intervals, expanded |
| `SuccessorDecoder.DecodeResiduals` | src/external/webgraph/webgraph.cc:572-584 | exactly the written residuals |
| `SuccessorDecoder.InplaceMerge` | src/external/webgraph/webgraph.cc:559-563 | a sorted permutation |
| `SuccessorDecoder.ReadReference` | src/external/webgraph/webgraph.cc:483-502 | the written reference and blocks, consuming exactly their bits |
| `SuccessorDecoder.ReadExtra` | src/external/webgraph/webgraph.cc:526-589 | the copied, interval and residual successors, sorted together, consuming exactly the bits of the extra part |
| `GraphReader.RingRead` | src/external/webgraph/webgraph.cc:504-505 | slot (n-r) mod (W+1) holds node n-r for 1 <= r <= W, even with the slot of n overwritten |
| `GraphReader.RingWrite` | src/external/webgraph/webgraph.cc:467-469 | the ring holds the last W+1 nodes again after each node |
| `GraphReader.PartSizes` | src/external/webgraph/webgraph.cc:521-524 | there is no extra part exactly when the copied successors reach the out-degree |
| `GraphReader.Reader.ReadLinks` | src/external/webgraph/webgraph.cc:480-592 | the whole successor list, ascending, as many as the out-degree |
| `GraphReader.Reader.ReadNode` | src/external/webgraph/webgraph.cc:465-592 | the next node with its list, or none exactly at the end of the stream; ring and stream stay in step |
| `GraphReader.ReadGraph` | src/external/webgraph/webgraph.cc:666-669 | reading to the end gives back every list of the graph, in order |
| `GraphReader.EveryDescriptionHasAFile` | src/external/webgraph/webgraph.cc:465-592 | every well-formed description, with any references, blocks and intervals, is the contents of some byte file that satisfies the demands of the reader |
| `GraphReader.EveryGraphHasAFile` | src/external/webgraph/webgraph.cc:465-592 | in particular every strictly ascending graph has a file |
| `RecordFile.LzoFile.Write` | src/util/file.cc:175-190 | everything written so far is extended by the data; every block is non-empty and at most kBlockSize; a block is written out exactly when the data does not fit, and data is cut only into full blocks |
| `RecordFile.LzoFile.Read` | src/util/file.cc:192-211 | the next bytes across blocks; 0 when there are too few or none |
| `RecordFile.LzoFile.WriteBlock` | src/util/file.cc:213-227 | the block goes to the file unless it is empty, and no byte is lost |
| `RecordFile.LzoFile.ReadBlock` | src/util/file.cc:229-247 | the next block, or false exactly at the end of the file |
| `RecordFile.WriteChunk` | src/util/file.cc:281-285 | appends the length and the data |
| `RecordFile.ReadChunk` | src/util/file.cc:287-300 | the next chunk, or false exactly when there is none |
| `RecordFile.WriteFile` | src/util/file.cc:281-285 | the closed file is a sequence of well-formed blocks that hold the records |
| `RecordFile.ReadFile` | src/util/file.cc:287-300 | every chunk in order, of any length, and then false |
| `RecordFile.RoundTrip` | src/util/file.cc:281-300 | any sequence of chunks, with empty ones and ones longer than a block, is read back |

## Left out

- MPI, threads, sleeps, timers, mmap, protobuf messages and logging: the network is a collection of PUTs, SyncBroadcast is "all workers have run the handler", PERIODIC and completion order are arbitrary choices, and a flush round is taken to mean delivery.
- Interleaving inside one process step: PUTs are applied between the process step and the output loop and around run_iter, as the code does, but not in the middle of folding, g_func and reset.
- Checkpoints, epoch markers, restore, termination checks and triggers.
- The dirty and tainted flags, and stealing combined with the delta protocol: ownership is static in the protocol, as with one shard per worker; stealing is modelled in the master only.
- GlobalTable.Table.UpdateF1: does not itself handle the requests that may be due at its end; RunIter does so right after it.
- Sampling and the priority and schedule iterators.
- StateTable.StateTable.AccumulateF1: does not model the row priority it recomputes, which only those iterators read.
- StateTable.StateTable.UpdateF1: does not model the row priority it resets and the update counter, which only those iterators and the progress report read.
- Master.Master.GetNext: any pending task may be picked, since the weight comparison is not a strict weak order once stolen and unstolen tasks mix, so what max_element picks is not determined by it.
- A zero average shard size, which divides by zero in steal_work: the decision is then arbitrary.
- Floating-point rounding, FLT_MAX and integer overflow of values: reals, an explicit infinity and unbounded integers. A vertex without out-links divides by zero in the pagerank kernel, but sends nothing.
- The process_delta_v hook, which is empty for the three kernels modelled; katz, adsorption and simrank.
- Text parsing of inputs, keys and properties: adjacency lists and parameters are given.
- The underlying hash functions: any function.
- Fairness: that every key is processed again and again is assumed in the notion of a round, not proved of the scheduler.
- Memory of list nodes, buckets and blocks; the map in the LRU cache and the ordered multimap are a Dafny map and an ordered sequence.
- The other caches and readers of the store (fifocache, kvreader, index, blockwriter, record), which are not on the path of getData.
- Streams that are not well-formed: the decoder's own assertions fail or it reads outside its arrays. Reads of the unary counter and of widths are not bounded to 32 bits.
- Partial writes of the graph's successor vector: it is a sequence that grows to the out-degree, and std::inplace_merge is a merge into a new sequence.
- The compressor: any pair of functions where decompression inverts compression of non-empty blocks of at most kBlockSize bytes. Uncompressed record files, which add nothing but the same chunk layout.
- Ints as negative numbers in record files: chunks are shorter than 2^31 bytes.
