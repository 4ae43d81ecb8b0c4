# A verified model of the strategy prober's core

The program tries many packet-mangling strategies against a target and learns which ones work. This
project models the parts of it whose correctness is not visible from any single function, and proves
that they keep their promises on every input and in every interleaving.

* **The worker pool** (`PoolProtocol`, `PoolSafety`, `PoolResults`, `PoolProgress`, `PoolScenarios`,
  `PoolCancellation`, `PoolOrigins`, `WorkerPool`, `Scheduler`, `Bayes`). One producer, a bounded task channel, W workers, a bounded result channel,
  one collector, a success limit and a cancellation token form a transition system; each action is one
  atomic access to shared state. A run is any sequence of enabled actions. Whatever the schedule, an
  uncancelled run returns the first results of the sequential run, and leaves the posteriors of their
  sequential fold; without a limit that is the whole run. A cancelled run enters no further backend
  call, always returns, and loses no more than what was not yet answered. When a run can deadlock, and how far the
  successes can overshoot the limit, is settled exactly.
* **The isolation of concurrent probes** (`WorkerTask`, `Exclusivity`, `PoolIsolation`, `Isolation`,
  `Learning`). A probe task is a trace of operations on nfqws, the firewall and the network, with their
  answers. `PoolIsolation` puts these traces under the pool protocol: in every run at most one start on
  a queue number has not had its stop attempt, and one nfqws instance at a time is alive on it exactly
  if no start on it follows a failed stop. A returned run leaves behind exactly what its stops and
  removals failed on, and reports the summaries of its probes.
* **The queue-number allocator** (`Queue`, `QueueBounds`). Leases partition the pool, and every schedule
  serves everybody within five steps per caller; exactly when a waiter can sleep beside a free number or
  be stranded is a bound on the number of callers.
* **The incremental HTTP reader** (`HttpRead`, `HttpStatus`, `Target`). Reading in arbitrary chunks
  and stopping early gives the verdict of reading everything and then classifying.
* **Candidate generation and selection** (`ParamCombinations`, `Pairs`, `Selection`, `RoundRobin`,
  `NodeOrdering`, `Nodes`, `BlobSentinel`).

`Types`, `Text`, `Sorting`, `Counting` and `Sequences` hold shared vocabulary.

## How the source appears here

Code that changes state in place stays imperative: `WorkerPool.PoolRun`, `Queue.QueueAllocator`,
`Bayes.BayesianState` and `WorkerTask.WorkerRuntime` are classes with the source's fields, and the
loops of the reader, the selection, the pairing and the ordering are methods with invariants. A method
of a concurrent class is one atomic action of one actor; its `Valid()` says that the fields are
exactly what the transition system prescribes for the recorded history, so every theorem about all
runs is a theorem about the object. Floating-point numbers are reals, `total_cmp` is the order of the
reals, strings compare lexicographically, bytes are characters. The backend, the network, clocks and
failing external calls are parameters, quantified over.

Assumed, as configuration validation guarantees or the source requires of its caller: at least one
worker, channel capacities of at least one, a non-empty target list per strategy, and a backend that
does not panic.

## Where the code differs from what is expected of it

* `StopState::stopped` reads the flag and only then registers its waiter
  (src/worker_pool.rs:105-110). With the two steps split, as in the source, the producer can miss the
  notification while the task channel is full. `run` keeps a handle to the task receiver itself, so
  the send neither fails nor completes and `run` waits for the producer forever. `DeadlockIff` says
  exactly when: a limit is set and the plan is longer than the limit and the task channel together.
  `NeverStuck` and `CanFinish` hold of all other configurations, and of all with check and
  registration in one step. All safety theorems hold of the split form.
* A stop of nfqws can fail with the process still alive (src/nfqws.rs:161-168); the worker then goes
  on to start the next one on the same queue number. `OneInstancePerQueueIff` says that this is the only
  way to two instances on a number.
* The mark-overlap check compares only the mark of the last configured worker (src/config.rs:689-693),
  and the `--workers` option can change the count afterwards. `OverlapAcceptedIff` says exactly which
  desync marks are accepted although a worker of the run carries them, `CheckSoundIff` when the check
  catches them all.
* `generate_assignments` adds the worker number in sixteen bits and the `--workers` option is not
  validated again (src/main.rs:359-361). `ExclusiveIffFewWorkers` gives the exact bound of the
  wrapping sum; a build with overflow checks stops already where `QnumsConsecutiveIff` fails.
* The documentation asks for queue leases per probe and for the socket to outlive the rule
  (docs/async_worker_lifecycle.md:5-15). The pool uses fixed numbers per worker, and the socket's
  lifetime is not claimed.
* A `Host` value rendered for a bracketed IPv6 host at another than the default port cannot be split
  again (`BracketedPortIsLost`); `HostRoundTrip` gives the exact condition.
* A waiter can sleep beside a free queue number, as a returned number wakes only one waiter, which may
  not have taken it yet. `SleepsIff` says when: exactly if there are two callers more than numbers. It
  is served later all the same (`EveryoneIsServed`), unless notified callers can be dropped before they
  retry; then, and only with that many callers, somebody can be stranded for good (`StrandsIff`).
* The order in which results are folded in matters exactly when two results that can give a missing
  strategy its prior disagree on it (`OrderIrrelevantIff`).

## Model

| member | source | states |
|---|---|---|
| PoolSafety.InvAlways | src/worker_pool.rs:56-336 | every state of every interleaving, cancelled or not, with the flag check and registration split, satisfies conservation, first-in-first-out, exact success counting, and the reasons for every exit |
| PoolSafety.ExactlyOnePlace | src/worker_pool.rs:207-244 | each task is unsent or in exactly one of task channel, one worker, result channel, collector, results, discarded; no task has two results, also under cancellation |
| PoolSafety.SuccessCountExact | src/worker_pool.rs:90-103 | `success_count` equals the received successes, is 0 without a limit, and the flag implies that the limit was reached |
| PoolSafety.NumberedAlways | src/worker_pool.rs:207-244 | the sent tasks are as many as those in the channels, in hand, recorded and discarded |
| PoolSafety.OvershootBound | src/worker_pool.rs:94-103 | with a limit the recorded successes never exceed limit + result capacity + workers |
| PoolScenarios.OvershootIff | src/worker_pool.rs:287-309 | some run attains that bound if and only if the plan has as many tasks |
| PoolSafety.PrefixRefinement | src/worker_pool.rs:162-256 | an uncancelled returned run recorded exactly one result per task of a plan prefix, the whole plan unless at least `limit` successes were recorded |
| PoolResults.SortedByIndex | src/worker_pool.rs:254-255 | the returned results are ordered by strategy index and are a permutation of the recorded ones, for any numbering |
| PoolResults.ReturnsPlanPrefix | src/worker_pool.rs:162-256 | over an increasing numbering the returned positions are 0, 1, ..., k - 1 in this order; k is the plan length without a limit |
| PoolResults.RunIsSequentialPrefix | src/worker_pool.rs:279-336 | with task-determined answers every uncancelled interleaving returns the first k results of the sequential run, up to the worker, with or without a limit |
| PoolResults.RunIsSequential | src/worker_pool.rs:279-336 | without a limit that is the whole sequential run |
| PoolResults.RunsAgree | src/worker_pool.rs:279-336 | of two uncancelled runs one returns the first results of the other |
| PoolProgress.StuckIffLostWakeup | src/worker_pool.rs:56-66 | an unfinished uncancelled state is stuck if and only if the producer's wakeup was lost; then only cancellation is enabled |
| PoolProgress.NeverStuck | src/worker_pool.rs:105-110 | no run of a configuration that cannot deadlock is ever stuck |
| PoolScenarios.LostWakeupHappens | src/worker_pool.rs:105-110 | every configuration of the split form with a limit and a plan longer than limit and task channel together has a run that loses the wakeup |
| PoolScenarios.DeadlockIff | src/worker_pool.rs:56-66 | some run deadlocks if and only if the check is split, a limit is set and the plan is longer than limit and task channel together |
| PoolProgress.RankStep | src/worker_pool.rs:287-335 | a ranking over task stages and live actors falls lexicographically with every useful step, and idle polls keep it |
| PoolProgress.EffortBound | src/worker_pool.rs:207-244 | an uncancelled run takes at most 20 steps per task, plus workers + 9, outside its polling loops |
| PoolProgress.CanFinish | src/worker_pool.rs:162-256 | every uncancelled run of a configuration that cannot deadlock can be continued until `run` returns |
| PoolCancellation.NoCallAfterCancellation | src/worker_pool.rs:312-314 | from the cancellation on, in every run, no worker enters its backend call |
| PoolCancellation.OnlyCommittedAreRecorded | src/worker_pool.rs:312-335 | a task recorded after a cancellation was recorded, on its way, or in its backend call at the cancellation |
| PoolCancellation.RecordedAfterCancellation | src/worker_pool.rs:207-244 | the recorded results never exceed those recorded, in the result channel, in the collector's hand or with a running or sending worker at the cancellation |
| PoolCancellation.AtMostOneMoreSent | src/worker_pool.rs:56-72 | once the run is cancelled or the limit's flag is up, at most one more task is sent |
| PoolCancellation.WorkerExitsIff | src/worker_pool.rs:287-335 | the exact reasons for which a worker's step ends its loop |
| PoolCancellation.ProducerEndsIff | src/worker_pool.rs:56-66 | the exact reasons for which a producer's step ends it |
| PoolCancellation.CancelledRunsAreShort | src/worker_pool.rs:226-253 | after its cancellation a run takes at most ten steps per worker, four per place in the result channel, and eight |
| PoolCancellation.CancelledRunReturns | src/worker_pool.rs:226-253 | every cancelled run can go on until `run` returns, even out of a deadlock |
| PoolOrigins.ResultsAreAnswers | src/worker_pool.rs:316-331 | every result of every run is one answer of the backend, to the worker and for the task it names |
| PoolOrigins.ReturnedAreAnswers | src/worker_pool.rs:254-255 | so are the returned results |
| WorkerPool.PoolRun.constructor | src/worker_pool.rs:173-205 | the shared state starts as the protocol's initial state |
| WorkerPool.PoolRun.CancelRun | src/worker_pool.rs:226-228 | cancellation is one action of the environment, possible at any moment |
| WorkerPool.PoolRun.ProducerStep | src/worker_pool.rs:56-66 | one step of `enqueue` with its checks and its select changes the fields in place exactly as the protocol prescribes |
| WorkerPool.PoolRun.WorkerStep | src/worker_pool.rs:287-335 | one step of `worker_loop` changes the fields in place exactly as the protocol prescribes |
| WorkerPool.PoolRun.CollectorStep | src/worker_pool.rs:207-244 | one step of the receive or drain loop changes the fields in place exactly as the protocol prescribes |
| WorkerPool.PoolRun.Receive | src/worker_pool.rs:94-103 | a received result is counted, and recorded or held until the flag is up |
| WorkerPool.PoolRun.TakeResults | src/worker_pool.rs:254-255 | what `run` returns: sorted, a permutation of the records, at most one per task, and a plan prefix when not cancelled |
| Scheduler.PlanIsIncreasing | src/scheduler.rs:85-101 | the scheduler's numbering is strictly increasing, as the pool theorems need |
| Scheduler.FinalizeResults | src/scheduler.rs:118-145 | the output keeps order and content, and the posteriors become the fold of the results |
| Scheduler.FinalPosteriors | src/scheduler.rs:123-127 | counted over the results themselves: where the posterior of each strategy id ends up, from its entry or the prior of its first result that counts |
| Scheduler.PosteriorsAreSequentialPrefix | src/scheduler.rs:79-145 | every uncancelled interleaving leaves the posteriors of the sequential map and fold over the tasks it took, with or without a limit |
| Scheduler.PosteriorsAreSequential | src/scheduler.rs:79-145 | without a limit these are the posteriors of the whole plan |
| Bayes.BayesianState.GetOrInsert | src/bayes.rs:75-81 | inserts the prior only for a missing key and changes nothing else |
| Bayes.BayesianState.Update | src/bayes.rs:83-98 | the map after an update, with cancelled results inserting the prior and infrastructure failures changing nothing |
| Bayes.FoldClosedForm | src/bayes.rs:83-98 | folding any list gives start + counts: successes on alpha, 0.7 per timeout and 1 per other counted failure on beta |
| Bayes.FoldOrderIndependent | src/bayes.rs:83-98 | two orders of the same results give the same posteriors when records that can give a missing key its prior agree on it |
| Bayes.OrderIrrelevantIff | src/bayes.rs:75-98 | all orders of the results fold alike if and only if any two non-infrastructure records with the same missing key carry the same prior |
| Queue.InvAlways | src/queue.rs:22-59 | partition, waiter registry and hope hold in every reachable state |
| Queue.LeasesPartitionThePool | src/queue.rs:22-59 | free and leased numbers, leases in release included, always partition the pool without duplicates |
| Queue.GuardNeverFires | src/queue.rs:52-58 | the `contains` guard of `release_qnum` never suppresses a release |
| Queue.PoolNumbers | src/queue.rs:26-28 | the n-th number is base + n, starting again from 0 after 65535 |
| Queue.NumbersAreTheRange | src/queue.rs:22-59 | without a wrap a number is free or owned, in every reachable state, exactly when base <= q < base + count |
| QueueBounds.NobodyIsStranded | src/queue.rs:38-59 | while any caller is blocked there is a lease, a stored permit or a woken caller, unless wakeups can be dropped and callers exceed numbers by two |
| Queue.RunsAreShort | src/queue.rs:38-59 | no run is longer than five steps per caller, whatever the schedule |
| QueueBounds.EveryoneIsServed | src/queue.rs:38-93 | under the same condition a run that cannot go on has finished every caller and holds every number free again |
| QueueBounds.NumberedAlways | src/queue.rs:22-59 | free and owned numbers always add up to the pool |
| QueueBounds.UncrowdedAlways | src/queue.rs:38-59 | with at most one caller more than numbers, a blocked caller is the only one without a number, and nothing is free unless a permit is stored |
| QueueBounds.SleepsIff | src/queue.rs:38-59 | a waiter can sleep beside a free number if and only if there are two callers more than numbers |
| QueueBounds.StrandsIff | src/queue.rs:38-51 | a caller can be stranded if and only if notified callers can be dropped and there are two callers more than numbers |
| Queue.QueueAllocator.New | src/queue.rs:22-36 | an empty pool is refused; otherwise the free numbers are base, base + 1, ..., in order, minus 65536 from there on |
| Queue.QueueAllocator.TryAcquire | src/queue.rs:38-51 | hands out the oldest free number, which was nobody's, and fails exactly on an empty pool |
| Queue.QueueAllocator.Register | src/queue.rs:49 | consumes a stored permit or registers as the latest waiter |
| Queue.QueueAllocator.LetGo | src/queue.rs:73-93 | a released or dropped lease still owns its number until the push |
| Queue.QueueAllocator.ReleaseQnum | src/queue.rs:52-59 | the number goes to the back of the deque, and the oldest waiter is woken or a permit stored |
| WorkerTask.TaskFollows | src/worker.rs:48-234 | whatever fails, a task goes through start, install, probe, remove and stop in this order and ends with no cleanup attempt missing |
| WorkerTask.TaskPerforms | src/worker.rs:55-209 | which operations a task performs, each once, for all answers: started when prepared, probed when set up, stop tried when started |
| WorkerTask.TaskGuards | src/worker.rs:119-203 | the same for the rule from the prepared port to the worker's number |
| WorkerTask.OnlyFailuresAreLeft | src/worker.rs:119-209 | each started nfqws gets one stop attempt and each installed rule one removal attempt of that very rule; alive and in place is exactly what these failed on |
| WorkerTask.AloneIff | src/nfqws.rs:124-169 | on a trace with one open start at a time, at most one instance is alive at every moment if and only if no start follows a failed stop |
| WorkerTask.SuccessIff | src/worker.rs:152-209 | a task succeeds exactly when setup and probe succeed; failing cleanup never changes the outcome |
| WorkerTask.ReportMeans | src/worker.rs:67-211 | outcome, kind, error class, queue number and source port of the report: the first failed stage of the setup, or the probe or timeout, with cleanup classes only in an empty class |
| WorkerTask.WorkerRuntime.RunWorkerTask | src/worker.rs:48-234 | the operations performed and the result reported, for all answers of the environment |
| WorkerTask.WorkerRuntime.RunStrategyTests | src/worker_pool.rs:338-376 | every target is probed in order, and the result is the summary of the attempts |
| WorkerTask.Summary | src/worker_pool.rs:346-375 | the first failure, or the last attempt when all succeed |
| WorkerTask.SummaryIsConjunction | src/worker_pool.rs:346-375 | the strategy result is one of the attempts and succeeds exactly when all attempts do |
| Learning.OnlyProbesTeach | src/worker.rs:67-209 | a failed setup leaves every posterior as it is; otherwise the posteriors learn exactly the probe's verdict, whatever cleanup does |
| Learning.StrategyTeachesNothingIff | src/worker_pool.rs:346-375 | a strategy changes no posterior exactly when its deciding target failed in setup, reported an infrastructure failure, or was cancelled with the posterior already present |
| Exclusivity.OneOpenPerQueue | src/worker.rs:48-234 | in every interleaving at most one start on a number has not had its stop attempt, and the instances alive are at most one more than the failed stops |
| Exclusivity.OneInstanceIff | src/worker.rs:204-209 | at most one instance is alive on a number at every moment if and only if no start on it follows a failed stop on it |
| Exclusivity.ProbeIsCovered | src/worker.rs:132-157 | at every probe the worker's own nfqws is started and not stopped and, in source-port mode, its rule is in place |
| Exclusivity.OnlyFailuresAtTheEnd | src/worker.rs:196-209 | when all workers are done, exactly the instances whose stop failed are alive |
| Exclusivity.ExclusiveIffFewWorkers | src/isolation.rs:43-68 | generated assignments keep two workers from having open starts on one number if and only if there are at most 65536 workers |
| PoolIsolation.ScheduleRuns | src/worker_pool.rs:312-321 | a pool run with real backend calls is a run of the pool protocol |
| PoolIsolation.QueuesAreExclusive | src/worker_pool.rs:287-335 | over all pool runs at most one start on a number has not had its stop attempt, none while its worker is outside the backend call, and the instances alive exceed that by the failed stops only |
| PoolIsolation.OneInstancePerQueueIff | src/worker_pool.rs:312-321 | over a pool run one instance at a time is alive on a number if and only if no start on it follows a failed stop on it |
| PoolIsolation.ReturnedRunLeavesOnlyFailures | src/worker_pool.rs:162-256 | when an uncancelled run returns, alive and in place is exactly what its stops and removals failed on |
| PoolIsolation.ResultsWereProbed | src/worker_pool.rs:316-331 | the worker a result names has begun the probes of its task and, once out of the backend call, performed all their operations |
| PoolIsolation.RunReportsItsProbes | src/worker_pool.rs:162-256 | with the real backend an uncancelled run returns the summaries of the probes of a plan prefix in plan order, and leaves the posteriors of their fold |
| PoolIsolation.BackendSucceedsIff | src/worker_pool.rs:338-376 | a task counts as a success exactly when setup and probe succeeded for each of its targets |
| Isolation.QnumsDistinctIff | src/isolation.rs:43-68 | queue numbers are pairwise distinct exactly for at most 65536 workers |
| Isolation.QnumsConsecutiveIff | src/config.rs:602-606 | the validated bound is exactly what keeps the numbers base + worker without wrapping |
| Isolation.AssignmentsCountUp | src/isolation.rs:49-67 | within the validated bounds worker w has number base + w and, in fwmark mode only, mark base + w + 1 |
| Isolation.MarksDistinctIff | src/isolation.rs:39-41 | saturating marks are distinct exactly while at most the last one reaches the ceiling |
| Isolation.OverlapsIff | src/isolation.rs:39-41 | when some worker carries the desync mark |
| Isolation.OverlapAcceptedIff | src/config.rs:689-693 | with separate checked and run worker counts, an overlap is accepted exactly when the mark lies in the saturated range of the run and is not the last checked worker's |
| Isolation.OverlapCheckMissesInterior | src/config.rs:689-693 | for equal counts these are the marks strictly inside the range |
| Isolation.CheckSoundIff | src/main.rs:359-361 | the check catches every overlap of a run exactly for one checked and one running worker, or for marks that all saturate |
| Isolation.OverriddenOverlapIsAccepted | src/main.rs:359-361 | a concrete overlap accepted because the run has more workers than were checked |
| Isolation.InteriorOverlapIsAccepted | src/config.rs:689-693 | a concrete accepted overlap |
| HttpRead.HttpOverStream | src/probe.rs:598-840 | on a clean stream the verdict that its first max(1, max_read_bytes) bytes deserve, stated over these bytes and their first blank line; for every stream what was read, why reading ended, that nothing settled is waited for, and what a timeout, a cancellation and a read error report |
| HttpRead.ReadOn | src/probe.rs:703-826 | the same for the loop after the first read |
| HttpRead.ParseMeans | src/probe.rs:1356-1378 | the first blank line splits the bytes into head and body; without one nothing is parsed |
| HttpRead.ClassifyDeserves | src/probe.rs:1456-1515 | block page exactly for 403 and 451, empty response exactly without a status or with another one outside 200 to 399, too small and success by the body, with their error classes |
| HttpRead.CriteriaMeanSettled | src/probe.rs:1517-1540 | the stop criterion is met exactly when the bytes settle the verdict |
| HttpRead.StopIsFinal | src/probe.rs:703-826 | however the loop ends on a clean stream, the verdict is that of the whole stream up to the read limit |
| HttpRead.EarlyStopIsFinal | src/probe.rs:1517-1540 | once the stop criterion holds no further byte changes verdict or status |
| HttpRead.TimeoutVerdict | src/probe.rs:953-966 | a read cut short may succeed exactly when what was read classifies as success |
| HttpRead.HeadersAreFinal | src/probe.rs:1356-1378 | complete headers fix header length and status, and the body grows by exactly the bytes added |
| HttpRead.TransferLevelMonotone | src/probe.rs:919-942 | reading on never lowers the transfer level |
| HttpRead.TransferLevelMeans | src/probe.rs:919-942 | when each transfer level is reported |
| HttpStatus.StatusLineRoundTrip | src/probe.rs:1328-1344 | every status line of section 4 of RFC 9112 with a 16-bit code is read back |
| HttpStatus.OnlyStatusLines | src/probe.rs:1328-1344 | a code comes only from a line that starts with an HTTP version token, space and a decimal number of sixteen bits |
| HttpStatus.WellFormedHeadSucceeds | src/probe.rs:1356-1515 | a well-formed 2xx or 3xx head gives its code and success for HEAD and headers-only reads |
| Target.HostRoundTrip | src/types.rs:169-221 | splitting the rendered Host value recovers host and effective port if and only if the host is renderable |
| Target.TargetRoundTrip | src/types.rs:169-185 | a renderable host, its port unless it is 80 for plain HTTP or 443 otherwise, and any path or query are given back together |
| Target.PlainRefusedIff | src/types.rs:187-216 | a plain authority is refused exactly when it is empty or names a port beyond sixteen bits |
| Target.BracketedAcceptedIff | src/types.rs:192-206 | a bracketed authority is accepted exactly when it closes and only a colon and a port may follow |
| Target.PortSplit | src/types.rs:187-221 | host, colon and rendered port are split at the colon unless the host has one |
| Target.BracketedPortIsLost | src/probe.rs:982-988 | bracketed IPv6 hosts with an explicit port are accepted, but their rendered header never gives the pair back |
| ParamCombinations.Combine | src/graph.rs:952-987 | the nested loops build the entries 0, 1, ..., product - 1 in this order |
| ParamCombinations.Extend | src/graph.rs:976-986 | one key extends every combination so far by every value |
| ParamCombinations.EntryDigits | src/graph.rs:976-986 | entry i selects the mixed-radix digits of i, the last key fastest |
| ParamCombinations.EntriesDistinct | src/graph.rs:976-986 | duplicate-free value lists give pairwise distinct entries |
| ParamCombinations.EntriesComplete | src/graph.rs:976-986 | every selection of one value per key is an entry |
| Nodes.SortIsCanonical | src/graph.rs:608-633 | sorting nodes with distinct ids does not depend on their order |
| Nodes.NodesLeIsTotalPreorder | src/graph.rs:662-695 | the comparator chain is a total preorder |
| Nodes.NodesLeMeans | src/graph.rs:608-614 | the comparators order by family rank, then family, action and id, each lexicographically |
| Nodes.RanksFollowLists | src/graph.rs:616-633 | both rank tables follow their lists of families |
| Nodes.UnlistedRanksLast | src/graph.rs:681-695 | all other families come last, with equal rank |
| Text.CompareIsLexicographic | src/graph.rs:608-614 | string comparison is the lexicographic order |
| Nodes.KeyDeterminesArgs | src/graph.rs:440-443 | for non-empty NUL-free argument lists equal keys mean equal arguments |
| RoundRobin.RoundRobinByFamily | src/graph.rs:555-597 | min(limit, n) nodes, fair in every prefix, round after round with families by diversity rank and then by name, each family best first with nothing better left out |
| RoundRobin.ServeRound | src/graph.rs:577-591 | one pass over the families keeps the loop state; no progress means every group is exhausted |
| RoundRobin.GroupByFamily | src/graph.rs:556-564 | groups are the families' members in order, each family once |
| Selection.GreedyFilter | src/graph.rs:434-457 | the pass with its set and two counters computes the greedy selection |
| Selection.KeptIsWithinCaps | src/graph.rs:439-457 | what is kept respects both caps and repeats no arguments key |
| Selection.DroppedIsJustified | src/graph.rs:439-457 | every dropped node repeats an earlier key or finds its family or action at its cap already when the pass comes to it |
| Selection.UnlimitedKeepsFirstOccurrences | src/graph.rs:439-457 | with caps too high to matter the pass is first-occurrence deduplication |
| Selection.SelectDiverseNodes | src/graph.rs:425-469 | the selection within both caps, distinct keys, distinct new ids, in quality order or in fair rounds |
| Selection.KeptInOrder | src/graph.rs:434-457 | the greedy pass meets and keeps the nodes by family rank, family, action and id |
| Selection.ReindexedNode | src/graph.rs:635-660 | a renumbered node changes its id and, when single without components, its components, and nothing else |
| Selection.ReindexedIdsDistinct | src/graph.rs:635-649 | new ids are pairwise distinct, so they can key the posteriors |
| Selection.ResortingChangesNothing | src/graph.rs:459-466 | the second sort of the filtered nodes is the identity |
| Pairs.GenerateCombinedNodes | src/graph.rs:471-553 | the filter, the sort and the nested loops compute the pairs of the sorted singles |
| Pairs.CombineAll | src/graph.rs:495-550 | the two loops with their set of seen keys compute all pairs in order |
| Pairs.PairsAreExact | src/graph.rs:495-550 | every output is an eligible pair, every eligible pair's key appears, keys and ids are distinct |
| Pairs.OutputsArePairs | src/graph.rs:480-550 | every output combines two base nodes that are no combinations and no legacy actions, have different ids and no argument in common, meet the configuration's conditions, and stand in combination order; all its fields |
| Pairs.CompatiblePairsAppear | src/graph.rs:480-550 | any two base nodes that meet these conditions have the key of their arguments among the outputs |
| Pairs.PairArgsAppear | src/graph.rs:516-520 | for non-empty NUL-free arguments every eligible pair's concatenated arguments appear |
| Pairs.EligibleIsSymmetric | src/config.rs:474-490 | eligibility does not depend on the order of the two |
| Pairs.BaseOrderIrrelevant | src/graph.rs:471-553 | permuting a base list with distinct ids leaves the whole output unchanged |
| NodeOrdering.LocalOrdering | src/ordering.rs:4-42 | a permutation that starts at the (cost, risk, id) minimum, each next node minimal by (table entry from the last family to its own or else its cost, cost, id) among all not yet emitted |
| NodeOrdering.FindNearest | src/ordering.rs:21-38 | the index of a node that no remaining node beats |
| BlobSentinel.ReplaceBlobFileSentinels | src/graph.rs:870-884 | the loop rewrites part by part and collects the discovered files in order |
| BlobSentinel.RewriteIsPartwise | src/graph.rs:870-884 | splitting the result gives the rewritten parts; parts without a sentinel are untouched |
| BlobSentinel.RewriteOnce | src/graph.rs:870-893 | rewriting is idempotent and a second pass discovers nothing |
| BlobSentinel.SentinelIff | src/graph.rs:886-893 | a part is a sentinel exactly when it is made of the prefix, the marker, a non-empty name without '@', '@' and a non-empty path |
| BlobSentinel.SanitizedIsAName | src/graph.rs:1185-1204 | the sanitised name is an identifier, and identifiers are unchanged |
| BlobSentinel.SanitizeMeans | src/graph.rs:1185-1204 | what each character becomes, and when an underscore is put in front |
| BlobSentinel.SentinelRoundTrip | src/graph.rs:1170-1183 | a rendered sentinel is rewritten anywhere to its exact name and path, all other parts as without it |

## Left out

- Sockets, TLS, QUIC, DNS-over-HTTPS, curl, nft and iptables commands and process spawning: foreign effects; they appear as answers of the environment or as operations of a trace.
- Real time: timeouts and the drain window are nondeterministic events; no duration is claimed.
- After a cancellation completeness is not claimed: answered tasks may be discarded, and workers may outlive `run`.
- A send of `EnqueueContext::enqueue` that fails because the receiver is gone: `run` holds the receiver for its whole life, so the case cannot arise.
- `run_tasks` differs from the modelled producer only by lacking the check before each task, which `enqueue` repeats.
- A start of nfqws whose status query fails after the process was spawned, and a firewall command that fails after it took effect: a failed start or install leaves nothing behind here. A process whose stop failed counts as alive although it may die later.
- Result fields without influence on a decision (times, byte counts in `ProbeResult`, `dpi_suspicious`, host and path echoes) and the list of attempts kept beside a pool result.
- Queue.QueueAllocator.Register: the waiter list is the notifier's first-in-first-out order; the lock-free race inside the notifier is one atomic step.
- HttpStatus.StatusLineRoundTrip: ASCII input only; UTF-8 validation and Unicode white space are not part of this model, and the theorems of `HttpRead` hold for any status parser.
- NodeOrdering.LocalOrdering: costs are reals, so NaN and signed zeros under `total_cmp` are not modelled.
- Bayes.FoldClosedForm: exact arithmetic over the reals; floating-point rounding of long sums is not modelled.
- Isolation.MarksDistinctIff: worker counts from 2^32 on, where the cast to 32 bits wraps, are excluded.
- `adaptive_score`, `thompson_like_score` and pruning: single expressions or random.
- Template rendering, suffix tables, payload discovery, aliases, `merged_param_values`, `apply_blob_file_options`: string tables and YAML walks whose properties are their text.
- `find_nft_rule_handle`: it matches by substring, so no exact-match property holds of it.
- Configuration loading, the command line and report printing: input and output.
