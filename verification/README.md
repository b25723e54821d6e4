# kube-burner: creation, churn and incremental load, verified

This project models the engine of kube-burner that creates a benchmark's workload, churns it,
steps it up and collects it again, and proves what that engine promises. The model is over an
abstract cluster: the namespaces that carry the job's labels, the namespaces that do not, and the
live objects, each named by template index, iteration, replica and namespace and labelled with a
run id. Around the engine it models the small concurrent protocols (replica goroutines behind two
WaitGroups, the MidPoint counter, the readiness waiters, the background hooks), the `--set` merge
and the network-policy connection table.

`dafny verify dfyconfig.toml` checks everything.

## How it is laid out

| file | models |
|---|---|
| `Workload.dfy` | the creates the default and the grouped loop issue, and Verify's count |
| `Cluster.dfy` | the executor's state as a value, with one function for each step of creation |
| `Lifecycle.dfy` | Verify, garbage collection and the namespaces of a run |
| `Churn.dfy` | what both churn modes share: the percentage and the exits of the loop |
| `NamespaceChurn.dfy` | the churn window, a churn cycle, whole churn runs, the namespace cache |
| `Executor.dfy` | class `JobExecutor`: the same steps in place, each proved equal to its function |
| `Validation.dfy` | the repeat-interval check of the configuration |
| `Calculators.dfy`, `Incremental.dfy` | the load calculators and the driver loop |
| `ObjectChurn.dfy` | oldest-first object churn and its fairness |
| `GroupBarrier.dfy`, `MidPoint.dfy`, `Waiters.dfy`, `Hooks.dfy` | the protocols, as interleaved atomic steps |
| `Netpol.dfy` | the connection table, its reuse index and the latencies recorded with them |
| `SetValues.dfy`, `DeepMerge.dfy` | `--set` parsing and the merge |
| `Arithmetic.dfy`, `Decimal.dfy`, `Options.dfy`, `Sequences.dfy` | division, numerals and names, absent values, counting in lists |

Methods that update state are proved equal to a function of the old state; the properties are
lemmas about those functions. A create is a position in `ex.objects` together with an iteration, a
replica and a namespace, so the index label of grouped execution is that position by construction.

What the original demands of its callers appears as `requires`: repeat intervals and replicas of at
least 1, at least one iteration per namespace, a positive linear step, at least one iteration for an
incremental run, and, for conservation over whole runs of namespace churn, namespaced iterations of
one iteration each (`NamespaceChurn.CycleConservesIff` covers the others).

## Where the code and its documentation disagree, or a caller may be surprised

The model follows the code; each point has the exact condition as a lemma and a concrete case.

- `pattern.linear.minSteps` is documented as a minimum (docs/reference/configuration.md:180). The
  adjustment rounds up twice, so fewer steps can come out: `Calculators.MinStepsMetIff` says exactly
  when, `Calculators.MinStepsMissed` is a run with fewer, the first window counted or not.
- MidPoint is documented as a stage of the initial creation that does not count churn re-creations
  (docs/measurements/index.md:1029). They do count: `MidPoint.ChurnFiresIff` says exactly when it is
  churn that fires it, `MidPoint.OnlyChurnFires` is such a run. The total ignores
  `repeatEveryNIterations`, so the initial creates can all succeed and not reach half of it:
  `MidPoint.JobReachesIff` gives the exact condition for every validated job,
  `MidPoint.TemplateReachesIff` for a job of one template, `MidPoint.RepeatMissesMidPoint` a case.
- Group garbage collection deletes by resource and group label, so it can delete objects of a template
  without `gc` that shares both with a collected one, and Verify then fails.
  `Lifecycle.GroupedVerifyIff` gives the exact condition: such a template is cluster-scoped, or
  placed in the run's namespaces, or fixed where the collected one is fixed, or fixed in a namespace
  that is marked or is one of the run's. `Lifecycle.BystanderCase` is such a job.
- Namespace churn uses positions in the namespace list as iteration numbers. With more than one
  iteration per namespace it loses namespaces and objects: `NamespaceChurn.CycleConservesIff` says
  exactly when a cycle conserves each, `NamespaceChurn.RecreatedIff` which windows are re-created,
  and `NamespaceChurn.LossCase` is a job whose first namespace alone loses an object.
- With a repeat interval the namespaces after the last whole block are never churned, and all others
  can be: `NamespaceChurn.ChurnableIff`, with ten namespaces and an interval of 4 in
  `NamespaceChurn.TailCase`. Without namespaces, or with a percentage that asks for more than all of
  them, the slice goes beyond the list: `NamespaceChurn.PlainWindow`, `NamespaceChurn.BeyondCase`.
- Object churn takes the oldest first, by creation timestamps of whole seconds. While the clock stands
  at an object's own second, ties can pass it over, and after that it is churned within ceil(n/d)
  cycles: `ObjectChurn.StarvationIff` says exactly how many cycles can pass without it, and builds the
  run.
- With a QPS below 1 the waiters' semaphore has no slot and the job waits for ever:
  `Waiters.DeadlockFreeIff`, `Waiters.SlowCase`. A job that needs no namespace but keeps `namespacedIterations` launches
  the same wait once for every iteration: `Waiters.OtherWaits`, `Waiters.SameWaitCase`.
- A `--set` key that goes beyond an earlier one panics: `SetValues.ParsePanicsIff`,
  `SetValues.PanicCase`. A key that addresses no list position is dropped in silence:
  `DeepMerge.MergedScalar`, `DeepMerge.DroppedCase`. A list held directly in a list is replaced:
  `DeepMerge.OthersUntouched`, `DeepMerge.InnerListLost`.
- Two pairs of IPv6 addresses can share a connection key, and then one is not tested:
  `Netpol.ExactlyOnceIff`, with two policies in `Netpol.Ipv6Collision`. The port list grows from peer
  to peer of a rule: `Netpol.PortsPileUp`, `Netpol.TwoPortsCase`. The pod cache has one key for a
  missing selector and for one that prints as the namespace's name, and it outlives the pods:
  `Netpol.AnswerRightIff` says exactly when an answer is right, `Netpol.SelectorConfused` and
  `Netpol.StaleCase` are wrong ones.

## Model

| member | source | states |
|---|---|---|
| `Workload.CreatesExactlyOnce` | pkg/burner/create.go:379-428 | over any iteration range every create the configuration calls for (template, iteration, replica, namespace) is sent exactly once, and nothing else is |
| `Workload.Groups` | pkg/burner/create.go:63-77 | the group numbers in use, each once, in ascending order |
| `Workload.AscendingUnique` | pkg/burner/create.go:69-76 | an ascending list is determined by its elements, so the random order of Go's map cannot show in the groups |
| `Workload.Members` | pkg/burner/create.go:64-68 | every listed object belongs to the group and to ex.objects |
| `Workload.CountMembers` | pkg/burner/create.go:63-68 | the groups partition ex.objects: an object is listed once in its own group and nowhere else |
| `Workload.CountGroups` | pkg/burner/create.go:483-550 | each create is sent by the one group its object belongs to, once |
| `Workload.GroupedRefinesDefault` | pkg/burner/create.go:458-550 | grouped execution sends the same multiset of creates as default execution, over every range |
| `Workload.Created` | pkg/burner/create.go:379-428 | the set of creates of a range is exactly what the branches and loops call for |
| `Workload.CreatePlaced` | pkg/burner/create.go:640-785 | where each create goes: the namespace its template fixes, none when cluster-scoped, else base-(iteration / IterationsPerNamespace), or the job's namespace when iterations share one |
| `Workload.VerifyCountsTheLoop` | pkg/burner/utils.go:199-214 | Verify's closed form equals the number of creates the loop issues for an object, for all iterations, intervals and replicas |
| `Workload.RenderedWith` | pkg/burner/executor.go:116-127 | a create is rendered with its own replica number and the number of its block of R iterations |
| `Workload.RenderedPairsOnce` | pkg/burner/executor.go:118-126 | the (iteration/R, replica) pairs an object is rendered with over [0, n) are exactly [0, ceil(n/R)) x [1, Replicas], each once |
| `Decimal.AtoiOfItoa` | pkg/burner/create.go:929-931 | reading a printed index gives the index back |
| `Decimal.NoLeadingZero` | pkg/burner/create.go:640-643 | a printed index has no leading zero |
| `Decimal.AtoiForms` | pkg/config/config.go:170 | reading takes a sign and ignores leading zeros |
| `Decimal.AtoiRejects` | pkg/config/config.go:170 | and refuses exactly the empty text, a sign alone and anything else that is not a digit |
| `Decimal.SuffixOfName` | pkg/burner/create.go:928-933 | the sort key of base-k is k, whatever dashes and digits the base has |
| `Decimal.SuffixOfAny` | pkg/burner/create.go:928-933 | the sort key of any name: the number after its last dash, the whole when it has none, 0 when that is no number |
| `Decimal.NamesDistinct` | pkg/burner/create.go:640-643 | different indices give different namespace names |
| `Decimal.NamesOfBases` | pkg/burner/create.go:640-643 | two names agree exactly when the job namespaces and the indices do |
| `Cluster.CreateNamespaceExtends` | pkg/burner/create.go:822-831 | afterwards the namespace exists and is marked, and nothing else has changed |
| `Cluster.PreCreateExtends` | pkg/burner/create.go:627-635 | pre-creation makes sure of exactly the namespaces the range needs and touches no object |
| `Cluster.RunDefaultSweeps` | pkg/burner/create.go:351-452 | the default run makes sure of exactly the namespaces it needs, sends its creates in loop order, and every one of them is live afterwards |
| `Cluster.KeptStep` | pkg/burner/create.go:97-144 | collecting group after group is collecting once at the end: no group's collection reaches a later group's creates |
| `Cluster.GroupLoopClosed` | pkg/burner/create.go:483-584 | what the group loop leaves: all groups' creates sent in group order, and everything live but what the groups collected |
| `Cluster.RunCreateRan` | pkg/burner/create.go:344-349 | in either mode, over any range: namespaces made sure of, each create sent once, and live exactly what a group did not collect |
| `Cluster.RunOrder` | pkg/config/config.go:523-532 | requests go out group after group as soon as one template has a group above 0, and iteration after iteration otherwise |
| `Lifecycle.AllOfCount` | pkg/burner/utils.go:199-214 | the creates of a template over [0, n) are as many as Verify expects |
| `Lifecycle.VerifyAfterRun` | pkg/burner/utils.go:157-223 | after a run from an empty cluster Verify succeeds exactly when no group collection deleted an object of an uncollected template |
| `Lifecycle.GroupedVerifyIff` | pkg/burner/create.go:97-122 | for a grouped job: exactly when no uncollected template is reached by the collection of one that shares its resource and group |
| `Lifecycle.RunLive` | pkg/burner/create.go:97-122 | exactly which creates are live after a run from a cluster without objects: with a group above 0 those that no collected template of their resource and group reaches by scope, placement or a marked namespace, otherwise all |
| `Lifecycle.CollectedGone` | pkg/burner/create.go:97-122 | a grouped run leaves no object of a template with gc, in generated, shared and fixed namespaces and cluster-scoped alike |
| `Lifecycle.OtherRunsStay` | pkg/burner/create.go:99-106 | objects with another run id survive a run with their label |
| `Lifecycle.NeededIff` | pkg/burner/create.go:344-635 | a run asks for a namespace exactly when some object is placed in a generated or the job's own one, and every such namespace is asked for |
| `Lifecycle.BystanderCase` | pkg/burner/create.go:97-122 | a job of two templates, one of them collected, whose Verify fails |
| `Lifecycle.CollectFaithful` | pkg/burner/job.go:519-550 | collecting a job unmarks every namespace it deletes |
| `Lifecycle.RunThenCollect` | pkg/burner/job.go:519-573 | gc undoes a run: no object, no namespace and no mark of the job is left, and the identifiers are as before |
| `Lifecycle.GcLeavesIff` | pkg/burner/job.go:519-573 | what gc leaves of a run, exactly: live objects in job namespaces that existed before and are not the job's, unless a template of the resource is fixed there |
| `Lifecycle.RunIdentity` | pkg/burner/create.go:344-587 | a run changes neither uuid, run id, iteration count nor the namespaces of others |
| `Lifecycle.NamespaceCalls` | pkg/burner/create.go:627-643 | from an empty cache over [0, n) one create request each for base-0 .. base-(ceil(n/IterationsPerNamespace)-1), in that order |
| `Lifecycle.LoopNamespaces` | pkg/burner/create.go:393-395 | the default loop treats namespaces and cache exactly as pre-creation does |
| `Lifecycle.RunNamespaceCalls` | pkg/burner/create.go:344-587 | the same requests in whichever mode, pre-created or not |
| `Lifecycle.GetJobNamespaces` | pkg/measurements/snapshot_latency.go:260-275 | the measurement's loop computes exactly the namespaces the run creates |
| `NamespaceChurn.AlignedWindow` | pkg/burner/create.go:891-925 | with a repeat interval the window lies in the list and start and size are whole blocks, for every percentage, length and draw |
| `NamespaceChurn.PlainSize` | pkg/burner/create.go:879 | without a repeat interval a cycle churns percent*n/100 namespaces rounded down, but at least one, for every percentage and list |
| `NamespaceChurn.AlignedSize` | pkg/burner/create.go:891-897 | with one: the least multiple of it that is not below that number, or the whole blocks of the list when it is too short |
| `NamespaceChurn.HalfCase` | pkg/burner/create.go:879-897 | 50 percent of ten namespaces: five, or eight with an interval of 4 |
| `NamespaceChurn.StartDrawnIff` | pkg/burner/create.go:915-926 | the windows that can be drawn start at exactly the multiples of the interval from which they fit the list |
| `NamespaceChurn.PlainWindow` | pkg/burner/create.go:879-937 | without one the slice lies in the list if and only if there is a namespace and the percentage does not ask for more than all |
| `NamespaceChurn.BeyondCase` | pkg/burner/create.go:879-937 | 110 percent of ten namespaces: the slice has eleven |
| `NamespaceChurn.WindowInRange` | pkg/burner/create.go:879-937 | a percentage up to 100 over a non-empty list always gives a valid slice |
| `NamespaceChurn.SharedClosure` | pkg/burner/create.go:199-217 | an aligned window holds the iteration of a shared object exactly when it holds all the iterations the object serves, and misses it exactly when it misses all |
| `NamespaceChurn.DrawnAligned` | pkg/burner/create.go:884-925 | every drawn window of a validated job is aligned to the interval of every template that has one |
| `NamespaceChurn.SharedDeletedIff` | pkg/burner/create.go:192-223 | a cycle deletes a shared cluster-scoped object if and only if all R iterations it serves are churned, and keeps it if and only if none is |
| `NamespaceChurn.TailNeverChurned` | pkg/burner/create.go:891-925 | positions after the last whole block are in no window |
| `NamespaceChurn.ChurnableIff` | pkg/burner/create.go:879-925 | with a repeat interval R, whatever the percentage, some draw churns iteration i if and only if i < R * floor(listed/R) |
| `NamespaceChurn.PlainChurnableIff` | pkg/burner/create.go:879-926 | without one, and with at most 100 percent, some draw churns every namespace of the list |
| `NamespaceChurn.TailCase` | pkg/burner/create.go:891-925 | ten namespaces, an interval of 4 and 100 percent: every window is the first eight |
| `NamespaceChurn.FirstIsLargest` | pkg/burner/create.go:883-889 | stopping at the first interval finds the largest one of a validated job |
| `NamespaceChurn.SortedAreNames` | pkg/burner/create.go:928-933 | sorted by suffix, the namespaces of n iterations are base-0 .. base-(n-1) in order: position k is namespace base-k |
| `NamespaceChurn.InsertSorted` | pkg/burner/create.go:928-933 | the sort keeps order and contents |
| `NamespaceChurn.FirstRunStands` | pkg/burner/create.go:344-349 | the creation run before churning establishes the workload that churn works on |
| `NamespaceChurn.DeletedInWindow` | pkg/burner/create.go:934-951 | every deleted object is of an iteration of the window or lies in one of its namespaces |
| `NamespaceChurn.PlacedInWindow` | pkg/burner/create.go:640-643 | an object lies in a window's namespace exactly when its namespace is generated and holds its iteration |
| `NamespaceChurn.CycleConservesIff` | pkg/burner/create.go:928-957 | for any number of iterations per namespace: a cycle conserves the live objects if and only if none is deleted with its namespace without its iteration being made again, and the namespaces if and only if each holds one iteration, the window is empty, or it is the first alone |
| `NamespaceChurn.FirstWindowLoses` | pkg/burner/create.go:928-957 | with several iterations per namespace, churning the first namespace loses every live object of iteration 1 in it |
| `NamespaceChurn.LossCase` | pkg/burner/create.go:928-957 | a job of two iterations in one namespace, its state after creation, and the object that the cycle loses |
| `NamespaceChurn.CycleConserves` | pkg/burner/create.go:928-957 | with one iteration per namespace, after a cycle the namespaces, their marks and the live objects (RunOnce and cluster-scoped ones included) are those before it, whatever the window |
| `NamespaceChurn.ChurnConserves` | pkg/burner/create.go:897-964 | the same for any number of cycles and any windows |
| `NamespaceChurn.CycleDeletes` | pkg/burner/create.go:934-951 | a cycle deletes exactly the window's objects, except those in a namespace their template fixes |
| `NamespaceChurn.RecreatedIff` | pkg/burner/create.go:935-957 | the deleted namespaces are all created again if and only if each holds one iteration, the window is empty, or it is the first namespace alone |
| `Churn.GoesOnUntil` | pkg/burner/create.go:899-913 | the two exits of either churn loop let exactly as many cycles through as timer and cycle count allow |
| `NamespaceChurn.RunFaithful` | pkg/burner/create.go:822-831 | a creation run keeps the cache faithful |
| `NamespaceChurn.CacheFaithful` | pkg/burner/create.go:822-942 | over any history of creation, churn and gc a true entry of createdNamespaces means the namespace exists |
| `Executor.JobExecutor.CreateNamespaceIn` | pkg/burner/create.go:822-831 | the whole new state: a marked namespace is left alone, any other is requested once and marked |
| `Executor.JobExecutor.PreCreateNamespaces` | pkg/burner/create.go:627-635 | the new state is pre-creation's, request for request |
| `Executor.JobExecutor.CreateRequest` | pkg/burner/create.go:771-820 | the request is recorded; the object appears unless its namespace is missing or it exists already |
| `Executor.JobExecutor.ReplicaHandler` | pkg/burner/create.go:645-703 | replicas 1..Replicas are sent in order to the placed namespace |
| `Executor.JobExecutor.CreateObjects` | pkg/burner/create.go:397-428 | one iteration sends exactly the creates of the three-way branch |
| `Executor.JobExecutor.RunCreateJobDefault` | pkg/burner/create.go:351-452 | the loop's whole new state, equal to the function RunDefaultSweeps is about |
| `Executor.JobExecutor.GroupObjectsByNumber` | pkg/burner/create.go:63-77 | ascending groups, each with its members in ex.objects order, whatever order the map is walked in |
| `Executor.JobExecutor.GcGroupObjects` | pkg/burner/create.go:97-122 | exactly the objects of this run id that a gc template of the group reaches are gone, and nothing else changed |
| `Executor.JobExecutor.RunGroup` | pkg/burner/create.go:484-583 | one group's new state: its creates in iteration order, then its collection |
| `Executor.JobExecutor.RunCreateJobGrouped` | pkg/burner/create.go:458-587 | the grouped run's whole new state, equal to the function GroupLoopClosed is about |
| `Executor.JobExecutor.RunCreateJob` | pkg/burner/create.go:344-349 | either mode's new state, equal to the function RunCreateRan is about |
| `Executor.JobExecutor.Verify` | pkg/burner/utils.go:157-223 | true exactly when every template outside group collection has its expected number of live objects of this run id |
| `Executor.JobExecutor.Gc` | pkg/burner/job.go:519-573 | the whole new state of a collection, equal to the function RunThenCollect is about |
| `Executor.JobExecutor.RepeatInterval` | pkg/burner/create.go:883-889 | the scan with its early break finds the first interval |
| `Executor.JobExecutor.ListSorted` | pkg/burner/create.go:928-933 | the job's namespaces, each once, ordered by suffix, from a listing in any order |
| `Executor.JobExecutor.ChurnWindowOnce` | pkg/burner/create.go:934-957 | one cycle's whole new state, equal to the function CycleConserves is about |
| `Executor.JobExecutor.ChurnDrawn` | pkg/burner/create.go:915-957 | one pass churns the window its draw selects, which fits the list |
| `Executor.JobExecutor.ChurnLoop` | pkg/burner/create.go:897-964 | the number of cycles timer and cycle count allow, each over a drawn window that fits the list |
| `Executor.JobExecutor.ChurnNamespaces` | pkg/burner/create.go:861-965 | a standing workload is standing again at the end, with the same namespaces and the same live objects, for any number of cycles and any draws |
| `Validation.ValidateJob` | pkg/config/config.go:490-514 | a job is accepted if and only if all intervals are positive, those above 1 are equal, and none of them is on a churned object under object churn; otherwise the report names the first template at fault, or object churn when there is none |
| `Validation.ValidateRepeatEveryNIterations` | pkg/config/config.go:489-516 | the configuration is accepted if and only if every job is; otherwise the first job that is not is reported |
| `Validation.AcceptedInterval` | pkg/burner/create.go:883-889 | for every accepted job the churn loop's scan finds the one interval all repeating templates share |
| `Calculators.NewUsable` | pkg/burner/incremental.go:42-82 | a validated job gets a calculator that steps forward, from startIterations or the job's own iterations to totalIterations or the start, by the configured steps unless they are too few, or with the configured base (2 without one), cap and warmup |
| `Calculators.NothingToDo` | pkg/burner/incremental.go:52-54 | without a positive number of iterations there is no window |
| `Calculators.IterationCalculator.NextWindow` | pkg/burner/incremental.go:91-156 | the window and the updated counter, branch for branch those of the specification |
| `Calculators.StepsForward` | pkg/burner/incremental.go:91-156 | below the total Next gives a non-empty window from the current total that does not overshoot |
| `Calculators.WindowsPartition` | pkg/burner/incremental.go:91-156 | both calculators terminate and their windows tile [0, total) without gap, overlap or empty window, numbered by the counter |
| `Calculators.WindowEnds` | pkg/burner/incremental.go:91-156 | every window in closed form: window n adds the start, the step, or in exponential load after warmup start * floor(base^(n-warmup)), at least 1 and at most the cap, cut off at the total |
| `Calculators.TilesAscend` | pkg/burner/incremental.go:173-294 | step ends strictly increase to the total |
| `Calculators.LinearWindows` | pkg/burner/incremental.go:91-107 | a linear run has 1 + ceil((total-start)/step) windows |
| `Calculators.AdjustedStepOptimal` | pkg/burner/incremental.go:64-80 | the adjusted step is at most the configured one, gives at most MinSteps windows after the first, and every shorter step gives more |
| `Calculators.MinStepsMetIff` | pkg/burner/incremental.go:71-80 | MinSteps is met if and only if the configured step met it already or MinSteps-1 adjusted steps leave something to do; never when the total is the start |
| `Calculators.MinStepsMissed` | pkg/burner/incremental.go:71-80 | a configuration with minSteps 7 that gives six windows in all |
| `Calculators.GrowthBound` | pkg/burner/incremental.go:120-156 | without a cap start * floor(base^(N-1-warmup)) < total for a run of N windows whose last follows a growth window |
| `Calculators.IntegerGrowthBound` | pkg/burner/incremental.go:137-156 | for an integer base b >= 2: start * b^(N-1-warmup) < total |
| `Calculators.IncrementsGrow` | pkg/burner/incremental.go:137-156 | for a base of at least 1 unclipped growth increments never decrease, and none exceeds the cap |
| `Incremental.StepVerifies` | pkg/burner/incremental.go:221-235 | every object of a step carries the step's run id, and Verify of the step's total expects exactly the step's creates |
| `Incremental.RunStep` | pkg/burner/incremental.go:190-285 | one pass creates [0, end) under a new run id; it goes on if and only if creation, verification and health check passed, and then collects; every other exit has exactly the errors of the check that failed and leaves the created state |
| `Incremental.RunIncrementalCreateJob` | pkg/burner/incremental.go:159-295 | it completes if and only if every step passes; the steps are the calculator's windows, each created on a clean cluster and cache under its own run id, verified and collected; otherwise it stops at the first step that does not pass, with the errors of all steps so far and the cluster as that creation left it; scrape jobs are those of the passed steps in window order; on completion uuid, run id and JobIterations are restored |
| `Incremental.ProgressStep` | pkg/burner/incremental.go:173-294 | what every pass keeps: steps so far are right and the next one starts clean |
| `ObjectChurn.DeleteCount` | pkg/burner/create.go:1011-1017 | between 0 and n, and at least 1 of a non-empty list, for every percentage |
| `ObjectChurn.DeleteSize` | pkg/burner/create.go:1011-1017 | percent*n/100 rounded down, but at least one and at most all, for every percentage |
| `ObjectChurn.RunConserves` | pkg/burner/create.go:974-1067 | every run of cycles conserves the object set |
| `ObjectChurn.ChurnedAtLeastOnce` | pkg/burner/create.go:1000-1063 | every object is churned in any ceil(n/d) consecutive cycles, whatever the order of equal timestamps |
| `ObjectChurn.ChurnedAtMostOnce` | pkg/burner/create.go:1000-1063 | and at most once in any floor(n/d) |
| `ObjectChurn.TiedWait` | pkg/burner/create.go:1000-1063 | with a clock that may stand still: once it has passed an object's timestamp the object is churned within ceil(n/d) cycles |
| `ObjectChurn.StarvationIff` | pkg/burner/create.go:1001-1063 | m >= 1 cycles can pass an object over if and only if a cycle does not take all objects and m is less than the cycles inside the object's own second plus ceil(n/d) |
| `ObjectChurn.InsertByStamp` | pkg/burner/create.go:1001-1005 | the sort keeps the listing, ordered by creation timestamp |
| `ObjectChurn.ObjectChurner.ListOldestFirst` | pkg/burner/create.go:996-1005 | the whole listing of a template, oldest first |
| `ObjectChurn.ObjectChurner.DeleteAll` | pkg/burner/create.go:985-1046 | of every churned template its oldest d objects are deleted, and nothing else |
| `ObjectChurn.ObjectChurner.ReCreate` | pkg/burner/create.go:1071-1090 | exactly the deleted objects are there again, with new timestamps |
| `ObjectChurn.ObjectChurner.ChurnOnce` | pkg/burner/create.go:984-1063 | over all templates: of the churned ones the oldest d objects and no others get timestamps of this cycle or later; the others are unchanged |
| `ObjectChurn.ObjectChurner.ChurnObjects` | pkg/burner/create.go:967-1068 | the churn loop over all templates, with both exits and a clock that never goes back: the history of each churned template is a run the wait bound is about, and one the fairness lemmas are about when the clock moves on in every cycle |
| `GroupBarrier.AlwaysInv` | pkg/burner/create.go:645-703 | in every state of every interleaving both counters count their goroutines and only the current call and group have goroutines at work |
| `GroupBarrier.Barrier` | pkg/burner/create.go:552-553 | when a create of a group goes out, every create of every earlier group is over, and finished no later |
| `GroupBarrier.NeverStuck` | pkg/burner/create.go:483-702 | before the last group is done some step is always possible |
| `GroupBarrier.GoroutinesGoOn` | pkg/burner/create.go:645-703 | every goroutine can take its own next step in every state, whatever the others do |
| `GroupBarrier.SentIffLaunched` | pkg/burner/create.go:645-703 | at the end exactly the requests whose inner goroutine got past the REST mapping have been sent, and every other one was dropped |
| `GroupBarrier.TimesStay` | pkg/burner/create.go:645-703 | a request keeps the times at which its create went out and was over |
| `GroupBarrier.WindowsHold` | pkg/burner/create.go:589-597 | the windows a run records are in execution order, follow one another, and every create of a finished group ran inside its group's window |
| `GroupBarrier.HistoryWindowsHold` | pkg/burner/create.go:589-597 | so do the windows of the initial creation and of all churn cycles together, which append to one list |
| `GroupBarrier.TagGroup` | pkg/prometheus/prometheus.go:204-211 | the group of the first window around the timestamp, or none when there is no such window |
| `GroupBarrier.FirstMatchOnly` | pkg/prometheus/prometheus.go:204-211 | two windows contain a timestamp only at the instant where one ends and the other starts |
| `GroupBarrier.TagIsGroup` | pkg/prometheus/prometheus.go:204-211 | a timestamp strictly inside a group's window matches that group only |
| `MidPoint.FiresAtMostOnce` | pkg/burner/create.go:705-724 | at most one notification in every interleaving of creators |
| `MidPoint.CountsOncePerRequest` | pkg/burner/create.go:778-819 | a request counts at most once however often it is retried |
| `MidPoint.NeverFires` | pkg/burner/create.go:716-719 | without a notifier or a positive total nothing is counted and nothing fires |
| `MidPoint.AnswerDecides` | pkg/burner/create.go:779-820 | a request counts when its attempt created the object or found it there, never after NotFound, and any other error leaves it trying |
| `MidPoint.FiredIff` | pkg/burner/create.go:716-724 | with no comparison outstanding it has fired if and only if the count reached max(1, floor(totalReplicas/2)) |
| `MidPoint.BoundaryPassed` | pkg/burner/create.go:430-447 | every run passes a state where the initial creates are over and churn has not begun |
| `MidPoint.InitialFiredIff` | pkg/burner/create.go:716-724 | when the initial creation ends it has fired if and only if the initial creates alone reached the threshold |
| `MidPoint.ChurnFiresIff` | pkg/burner/create.go:716-724 | it fires during churn if and only if the initial creates stay below the threshold and churn's re-creations lift the count over it |
| `MidPoint.OnlyChurnFires` | pkg/burner/create.go:716-724 | a run in which it has not fired when creation ends and churn fires it |
| `MidPoint.JobFiredIff` | pkg/burner/create.go:283-291 | after a creation run of a job over [0, n) whose requests were all accepted it has fired if and only if the creates Verify expects, summed over the templates, reach half of setupCreateJob's total |
| `MidPoint.JobReachesIff` | pkg/burner/create.go:283-291 | the exact condition for every validated job: B*(n-2*ceil(n/R)) <= A + C*n + 1, with the replicas of RunOnce (A), every-iteration (C) and repeating (B) templates |
| `MidPoint.TemplateReachesIff` | pkg/burner/create.go:283-291 | for one template: RunOnce, or n <= 2*ceil(n/R), or one replica and n = 2*ceil(n/R)+1 |
| `MidPoint.RepeatMissesMidPoint` | pkg/burner/create.go:283-291 | one replica, an interval of 4 and four iterations: one create against a threshold of two |
| `Waiters.LaunchAll` | pkg/burner/create.go:733-758 | the launched namespaces and the marks are those of the plan, with its continue and break |
| `Waiters.WaitsOnce` | pkg/burner/create.go:733-740 | each namespace of the range not waited on before is waited on exactly once and marked, and no other is |
| `Waiters.OtherWaits` | pkg/burner/create.go:733-758 | one wait for a single-namespace job, and one identical wait per iteration when no namespace is required |
| `Waiters.SameWaitCase` | pkg/burner/create.go:733-758 | a job of one cluster-scoped template and three iterations that waits three times |
| `Waiters.BoundedConcurrency` | pkg/burner/create.go:729-742 | never more than int(QPS) waits at once |
| `Waiters.ErrorIffFailed` | pkg/burner/create.go:743-768 | on return every waiter is over and the result is an error if and only if some wait failed, and then one of the failures |
| `Waiters.FirstErrorStays` | pkg/burner/create.go:748-768 | the error returned is the first that was reported |
| `Waiters.RangeWaited` | pkg/burner/create.go:727-769 | on return every namespace of the range has been waited on, now or before, and an error is that of a namespace of the range whose wait failed |
| `Waiters.DeadlockFreeIff` | pkg/burner/create.go:729-759 | it can always go on if and only if int(QPS) is at least 1 or there is nothing to wait for |
| `Waiters.SlowCase` | pkg/burner/create.go:729-742 | one namespace and no slot: no step is ever possible |
| `Hooks.AlwaysInv` | pkg/burner/hooks.go:139-300 | in every interleaving each hook since the last drain is in exactly one place: waiting, in the channel or drained, or logged |
| `Hooks.DrainReturns` | pkg/burner/hooks.go:285-300 | a drain returns exactly min(k, hookCount) results of the k hooks started since the last one, each once, the others were logged, and the capacity survives |
| `Hooks.OrderKept` | pkg/burner/hooks.go:285-300 | results are drained in the order in which they were sent |
| `Hooks.NeverBlocks` | pkg/burner/hooks.go:182-227 | no monitor ever blocks, and a drain can always begin and go on once the monitors are gone |
| `Hooks.ExecuteHooks` | pkg/burner/hooks.go:60-90 | exactly the stage's background hooks before the first that fails to start are started, in order; if all start, its foreground hooks are run up to and with the first that fails; it fails if and only if one did |
| `Netpol.PodAddresses.AddPodsByLabel` | pkg/measurements/netpol_latency.go:154-186 | the cache and the answer after a call, equal to the function the lemmas below are about |
| `Netpol.CachedIsFirst` | pkg/measurements/netpol_latency.go:169-184 | what is cached under a key is the first answer that was not empty, over any history of calls on a changing cluster |
| `Netpol.AnswerRightIff` | pkg/measurements/netpol_latency.go:154-186 | after any history on a changing cluster the answer is the one of the moment if and only if no earlier call with the key found pods, or the first that did found the same |
| `Netpol.SecondCallRightIff` | pkg/measurements/netpol_latency.go:154-186 | of two calls the second is right if and only if the keys differ, the first found nothing, or both selectors find the same |
| `Netpol.SharedKeyIff` | pkg/measurements/netpol_latency.go:156-168 | two selectors share a key if and only if one is missing and the other prints as the namespace's name |
| `Netpol.SelectorConfused` | pkg/measurements/netpol_latency.go:154-186 | a namespace and two selectors where the second call gets the first one's pods |
| `Netpol.StaleCase` | pkg/measurements/netpol_latency.go:66-186 | a replaced pod whose old address is still answered |
| `Netpol.ReuseCovers` | pkg/measurements/netpol_latency.go:295-309 | under a key addrReuse holds exactly the policies of the pairs with that key, each once |
| `Netpol.ConnectionsCount` | pkg/measurements/netpol_latency.go:289-325 | a pair is listed as often as it was met with an unknown key |
| `Netpol.AtMostOnce` | pkg/measurements/netpol_latency.go:289-325 | no pair is tested twice, and none that no policy allows |
| `Netpol.ExactlyOnceIff` | pkg/measurements/netpol_latency.go:295-300 | every allowed pair is tested exactly once if and only if the printed keys tell the allowed pairs apart |
| `Netpol.ColonFreeDistinguishes` | pkg/measurements/netpol_latency.go:295-297 | client addresses without a colon give distinguishing keys |
| `Netpol.ColonFreeClients` | pkg/measurements/netpol_latency.go:295-297 | so IPv4 clients always meet that condition |
| `Netpol.CollisionUntested` | pkg/measurements/netpol_latency.go:295-312 | of two policies whose pairs have one key, the second allows a pair that is in no work list |
| `Netpol.Ipv6Collision` | pkg/measurements/netpol_latency.go:296-297 | two IPv6 policies of that kind |
| `Netpol.ConnectionsNameFirst` | pkg/measurements/netpol_latency.go:311-325 | a connection is recorded under the first policy that covers each pair it lists |
| `Netpol.TouchedIffAllowed` | pkg/measurements/netpol_latency.go:253-334 | the loop nest looks at exactly the pairs some policy allows, never a pod against itself |
| `Netpol.TestedOnce` | pkg/measurements/netpol_latency.go:253-334 | every ordered pair that some policy allows is in the work lists exactly once and no other pair is, under distinguishing keys |
| `Netpol.ReuseIsCoverage` | pkg/measurements/netpol_latency.go:295-309 | after preparation addrReuse names exactly the policies that allow a pair with that key, without repeats |
| `Netpol.VisitHasPeer` | pkg/measurements/netpol_latency.go:253-288 | every visit, by its number, is that of one place in the loop nest over policies, rules, peers and addresses |
| `Netpol.PortsPileUp` | pkg/measurements/netpol_latency.go:265-325 | each connection names the server's port once for every selective peer of its rule up to and with the peer in whose visit it was recorded |
| `Netpol.TwoPortsCase` | pkg/measurements/netpol_latency.go:265-325 | a rule with two peers, and a connection with two ports |
| `Netpol.NetpolLatency.VisitRemote` | pkg/measurements/netpol_latency.go:288-325 | one client's pass leaves both tables as the specification of the visits so far says |
| `Netpol.NetpolLatency.PrepareConnections` | pkg/measurements/netpol_latency.go:253-334 | after all policies both tables are those of the visits of earlier jobs, which nothing resets, and of all visits of this one, in order |
| `Netpol.VisitsOfJobs` | pkg/measurements/netpol_latency.go:253-334 | so the tables after several jobs are those of all their policies together |
| `Netpol.NetpolLatency.ProcessResults` | pkg/measurements/netpol_latency.go:437-451 | every policy's list of latencies is its old one followed, in result order, by one latency for each result whose key it covers, and no other policy gets an entry |
| `Netpol.SamplesPerPolicy` | pkg/measurements/netpol_latency.go:253-451 | end to end: a policy name gains as many latencies as there are results whose key belongs to a pair that a policy of that name allows |
| `Netpol.SampleValue` | pkg/measurements/netpol_latency.go:437-447 | and the one for a result, which comes after those of the results before it, is the time from the policy's creation (0 when unknown) to the connection |
| `SetValues.JoinOfSplit` | pkg/config/config.go:536 | splitting a key at its dots loses nothing |
| `SetValues.SplitAtDots` | pkg/config/config.go:536 | no segment of a split key holds a dot |
| `SetValues.SplitOfJoin` | pkg/config/config.go:536 | splitting undoes joining whenever no segment holds a dot |
| `SetValues.TrimStrips` | pkg/config/config.go:569-579 | trimming takes off the white space at both ends, all of it and nothing else |
| `SetValues.SettingOfText` | pkg/config/config.go:569-582 | a setting written as key=value is read back as it was, equals signs in the value included |
| `SetValues.ItemFound` | pkg/config/config.go:170 | a list is entered by number: a segment finds the item whose position it reads as, and nothing when it reads as none |
| `SetValues.SetNestedPanics` | pkg/config/config.go:535-548 | setNestedValue panics if and only if a proper prefix of the path finds something that is not a map |
| `SetValues.SetNestedLookup` | pkg/config/config.go:535-548 | what every path finds afterwards: the value at the key, maps on its way, nothing below it, and everything else as before |
| `SetValues.ParsePanicsIff` | pkg/config/config.go:568-584 | parsing panics if and only if some key goes beyond an earlier one |
| `SetValues.PanicCase` | pkg/config/config.go:535-548 | a=1 followed by a.b=2 |
| `SetValues.ParseLookup` | pkg/config/config.go:568-584 | whenever parsing succeeds: of the settings whose keys are comparable with a path the last one decides that it finds a value, a map or nothing, and with none it finds nothing |
| `SetValues.ParseSetValues` | pkg/config/config.go:568-584 | succeeds if and only if all options are well-formed and no key extends an earlier one; otherwise it stops at the first option it cannot use, and the tree is that of the options without the blank ones |
| `DeepMerge.Merge` | pkg/config/config.go:156-198 | whatever order the keys are ranged over in, the result is the specified merge, when no two keys of a map name one item of the list it meets |
| `DeepMerge.MergeItems` | pkg/config/config.go:166-185 | a list under a map of numeric keys, in any key order |
| `DeepMerge.OneItem` | pkg/config/config.go:166-185 | one numeric key over a list changes the item at that position alone, merging a map and overriding anything else, and a number beyond the list changes nothing |
| `DeepMerge.FirstItemCase` | pkg/config/config.go:166-185 | position 0 of a list of two is its first item |
| `DeepMerge.ClearNoAlias` | pkg/config/config.go:166-173 | when every list item is named by one key at most, no key competes with a source path |
| `DeepMerge.MergedScalar` | pkg/config/config.go:156-198 | a scalar of the source is found at its path if and only if the document can be entered along it, and nothing is found there otherwise |
| `DeepMerge.DroppedCase` | pkg/config/config.go:170-172 | a setting for position 3 of a list of one that is dropped |
| `DeepMerge.OthersUntouched` | pkg/config/config.go:156-198 | a path no setting leads along finds what it found before if and only if it does not go on inside a replaced list of a list |
| `DeepMerge.FlatKeepsInnerLists` | pkg/config/config.go:168-184 | without lists directly in lists that never happens |
| `DeepMerge.ListsKeepLength` | pkg/config/config.go:167-185 | a list that no setting replaces, itself or around it, keeps its length if and only if it is not inside a list of a list that a setting reaches into |
| `DeepMerge.MergeIdempotent` | pkg/config/config.go:156-198 | merging the same settings again changes nothing |
| `DeepMerge.ClearAgain` | pkg/config/config.go:156-198 | and the merged configuration meets what the loops ask for again, in any key order |
| `DeepMerge.SettingsApply` | pkg/config/config.go:156-584 | from the command line, whenever parsing succeeds: each key that no later key overrides finds its value in the merged configuration if and only if the document can be entered along it |
| `DeepMerge.SettingsLeaveRest` | pkg/config/config.go:156-584 | from the command line, whenever parsing succeeds: a path comparable with no key stays as the file had it, with the exact exception |
| `DeepMerge.InnerListLost` | pkg/config/config.go:178-184 | a setting into a list of a list that loses the old item |

## Left out

- Kubernetes, dynamic, KubeVirt and Prometheus clients, discovery and REST mapping: the cluster is a state that accepts creates and deletes. API calls succeed, except for the answers NotFound and AlreadyExists and, in `MidPoint`, retried errors.
- Templates and YAML: rendering is a function of (iteration/R, replica); templated kinds, late REST mapping and multi-document templates are not modelled, so `NamespacesRequired` is decided from the start and `findGlobalObjectIndex` is the position itself.
- Grouped execution is taken over the created templates; a template with fewer than one replica, which the original skips with a warning, is not in the model's list although the original still looks at its group id.
- Cancellation: `replicaHandler` then returns without its inner wait, and the barrier is claimed for uncancelled runs; the hook manager's context is never cancelled either.
- Real time, delays, rate limiters and pauses: time is a logical clock, the churn timer is the number of cycles that begin before it fires, and random numbers are arbitrary draws.
- Floating point and integer overflow: `math.Pow` is exact over the reals with its result rounded down, `math.Ceil` is exact division rounded up, and integers are unbounded.
- A nil Linear or Exponential pattern, on which the original dereferences nil.
- Readiness waiting inside the loops (PodWait, and each group's own wait): only `waitForCompletion` is modelled.
- Hooks inside creation and churn, scripts, processes and output files: a hook is its stage, its kind and whether it starts or succeeds.
- Executor.JobExecutor.ReplicaHandler: sends in replica order; the goroutines that do it in the original are modelled in `GroupBarrier`.
- Executor.JobExecutor.CreateRequest: one attempt; retries are modelled in `MidPoint`.
- Executor.JobExecutor.ChurnNamespaces: lists the job's namespaces by its labels without the run id, which all of them share when churn follows a plain run, and asks for at least one namespace and at most 100 percent; `NamespaceChurn.PlainWindow` says what happens otherwise.
- Executor.JobExecutor.Gc: both deletion strategies delete the same things, and waiting for deletion is not modelled.
- MidPoint.FiresAtMostOnce: sync.Once is taken as atomic, and churn's requests interleave freely once the initial ones are done, cycle after cycle or not.
- ObjectChurn.ObjectChurner.ChurnObjects: deletion errors are not modelled, and the order in which objects are created again shows only in their timestamps.
- Incremental.RunIncrementalCreateJob: the claims about clean steps need a cluster without the job's objects and namespaces at the start; indexing and scraping themselves are not modelled.
- DeepMerge.Merge: works on values, so the update in place of the decoded maps, and the sharing of source subtrees with the destination, are not captured; it asks that where a map of the source meets a list no two of its keys name the same item ("1" and "01"), because the one that Go's random map order takes last decides.
- SetValues.ParseSetValues: scalars keep their text (parseValue's numbers and booleans are not modelled), trimming knows ASCII white space only, and setNestedValue is a recursion on values instead of a walk with a pointer.
- Netpol.NetpolLatency.PrepareConnections: gets the policies with their selectors already resolved to addresses; getNamespacesByLabel, rendering, and the fatal answer to a port that is not TCP are left out.
- Netpol.NetpolLatency.ProcessResults: takes the results in one order; Go ranges over the pods in random order, which changes only the order of the samples.
- Other job types (delete, patch, read, KubeVirt), image preload, alerts, indexing, measurement quantiles and the command line: little state and little to relate.
