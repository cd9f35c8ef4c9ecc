# Topology placement: scheduler plugin and descheduler strategy

A `TopologySchedulingPolicy` says how many pods each value of a node label (a zone, a region, a cluster)
should get. Two programs enforce it. The scheduler plugin counts the policy's pods per value before each
scheduling cycle and admits a node only while its value is under its quota, or once the whole policy is
reached. The descheduler strategy groups the running pods by value and evicts the surplus when some value is
short. This project models both and proves what they do, alone and together.

## How the model is laid out

| file | what it holds |
|---|---|
| `Cluster.dfy` | pods, nodes, policies, and Go's `int32` with its wrap-around |
| `Seqs.dfy` | filters, sums and permutations of lists |
| `PolicyMap.dfy` | the list-to-map conversion of a policy |
| `Counting.dfy` | counting one node, and the recount of a whole snapshot |
| `ParallelCount.dfy` | the worker goroutines of the counting, as a step system |
| `Updates.dfy` | what AddPod, RemovePod, Reserve and Unreserve do to the counters, and runs of them |
| `PreFilterStates.dfy` | the counters on the heap: update, clone, dry runs on clones |
| `TopologyScheduling.dfy` | PreFilter's calculation, Filter and the update calls |
| `Incremental.dfy` | updating the counters against recounting the snapshot |
| `Scoring.dfy` | Score |
| `EvictionOrder.dfy` | the order of eviction and the sort in place |
| `Descheduler.dfy` | grouping, the decision, the eviction loops, the whole strategy |
| `Snapshots.dfy` | one cluster as both programs see it |
| `Admission.dfy` | runs of scheduling cycles |
| `Convergence.dfy` | both programs together |
| `Strategy.dfy` | one call of the strategy on all policies, and what a panic leaves |
| `Interleaving.dfy` | both programs and the users taking turns in any order |
| `Counterexamples.dfy` | small clusters on which the programs do not serve their purpose |

Two definitions carry the project. `Counting.Recount` is the counter map that a snapshot calls for: every value
keyed by the pod's affinity, with the sum over all nodes of that value. Every scheduler-side method is tied to
it. `CycleKeys` and `CycleCounts` say what it is in terms of the policy and the snapshot alone, as `CntMeans` does
for a cluster. `Descheduler.Outcome` says which pods one run of the strategy attempts to evict: for each value the
first so many of its pods in eviction order. Every descheduler-side method is tied to it, and the theorems of
`Convergence.dfy` and `Interleaving.dfy` are about any attempt log that satisfies it, with any mixture of
successes and failures; `Strategy.dfy` leads from a call on all policies to such logs.

## What turned out not to hold

* The strategy does not always enforce the policy. Values without a pod are not looked at, so a policy whose
  missing values are all empty is taken for reached and nothing is evicted (`EmptyValueIsNotSeen`).
  `Convergence` gives the exact condition: with the right total of pods, one pass and the re-admission of the
  evicted pods meet the policy if and only if no stray pod came in, and it was met before or some value that
  had pods was short.
* The two programs can fight. Filter passes a pod without this policy's label, although the selector may select
  it and the policy then counts it (a *stray* pod). Two cycles from an empty cluster suffice for every pass of
  the strategy to attempt an eviction (`StraysMakeThemFight`). `FightIff` gives the exact condition: in a
  settled cluster one more selected pod starts a fight if and only if some value with pods is short and the
  pod's own value is not. `SettledStaysIff` says when the cluster stays settled, and `NeverFight` holds for
  every run of pods that Filter passes in which each stray pod meets that condition.
* A negative number of replicas makes the eviction index run off the list (`NegativeReplicasCrash`).
  `CrashesIff` says exactly when.
* Filter does not check a value of the policy that has no counter, and reserving such a node dereferences a nil
  counter (`FullUnkeyedValueIsAdmitted`). `FilterOnAnyNode` says exactly when; `ReserveAfterFilterIsSafe` shows
  that nodes that pass the pod's own node affinity are not concerned.
* `Less` holds both ways between two pods that are Failed, Succeeded or Pending, so it is not the strict order
  that package sort documents (`LessIsStrictIffNotIdle`). The order it does give is `Before`, and between pods
  with different names that is `Less` again (`BeforeIsLess`).
* Updating a counter and recounting differ on terminating pods, which only the recount skips, and on pods of
  unlabelled nodes when the value "" is keyed (`TerminatingPodIsSubtracted`, where the counter becomes -1, and
  `UnlabelledNodeIsRecounted`). `UpdateAgreesIffMirrored` is an if-and-only-if.
* A comment in the descheduler's decision says that the topology is not reached when no value exceeds its
  replicas. The code takes it for reached when every value with pods has its replicas exactly; the model
  follows the code (`CheckTopoReached`).
* The comment on the strategy field promises a balance between values. The score as coded does prefer the
  emptier value, but it is negative as soon as a fiftieth of the value is filled (`ScoreRange`).

## Model

| member | source | states |
|---|---|---|
| PolicyMap.LastEntryWins | pkg/util/utils.go:33-39 | a value maps to replicas r exactly if the last list entry that names the value has replicas r |
| PolicyMap.CovertPolicy | pkg/util/utils.go:33-39 | the loop builds that map |
| PolicyMap.ConstraintMeans | pkg/topologyscheduling/topology_scheduling.go:203-211 | the constraint both programs derive has the policy's own key and selector, and for each value the replicas of the last list entry that names it |
| Counting.CountPodsMatchSelector | pkg/topologyscheduling/topology_scheduling.go:423-439 | the loop counts the present, live, selected pods of the namespace |
| ParallelCount.EveryInterleavingIsExact | pkg/topologyscheduling/topology_scheduling.go:240-252 | after any interleaving of the workers' look-up, count and add actions in which all tasks finish, the counters are the recount of the snapshot |
| ParallelCount.NoPartialSumOverflows | pkg/topologyscheduling/topology_scheduling.go:240-252 | in the middle of any run a counter is the unwrapped sum of the finished tasks and at most its final value, if that value fits 32 bits |
| ParallelCount.RunsAreBounded | pkg/topologyscheduling/topology_scheduling.go:240-252 | the actions of a run and those it leaves are never more than there were |
| ParallelCount.RunsAreShort | pkg/topologyscheduling/topology_scheduling.go:240-252 | from the start no run takes more than three actions per node, and one that takes as many has finished |
| ParallelCount.SomeScheduleFinishes | pkg/topologyscheduling/topology_scheduling.go:240-252 | from every reachable state all tasks can still be finished |
| PreFilterStates.PreFilterState.UpdateWithPod | pkg/topologyscheduling/topology_scheduling.go:69-85 | the one counter of the pod's value moves by delta, for a selected pod of the namespace on a labelled node; the nil dereference happens exactly if that value is not keyed, and then nothing changes |
| PreFilterStates.PreFilterState.Clone | pkg/topologyscheduling/topology_scheduling.go:87-104 | the clone has equal counts in fresh, unshared counters |
| PreFilterStates.UpdateOne | pkg/topologyscheduling/topology_scheduling.go:69-104 | an update of one clone changes neither the original nor any other clone |
| PreFilterStates.DryRuns | pkg/topologyscheduling/topology_scheduling.go:87-104 | under any interleaving of updates on any number of clones, each clone ends with its own updates only and the original is unchanged |
| Updates.CountersConserveDeltas | pkg/topologyscheduling/topology_scheduling.go:69-85 | after any run of updates a counter is its start plus the signed sum of the events that touch it, modulo 2^32 |
| Updates.OrderIsIrrelevant | pkg/topologyscheduling/topology_scheduling.go:309-339 | two runs with the same events in different orders give the same counters |
| Updates.BalancedRunRestores | pkg/topologyscheduling/topology_scheduling.go:391-421 | a run in which every reservation is taken back, in any order, restores every counter |
| TopologyScheduling.KeyNodes | pkg/topologyscheduling/topology_scheduling.go:220-238 | phase one leaves a fresh zero counter for exactly the values of labelled nodes that pass the affinity |
| TopologyScheduling.ParallelizeProcessNode | pkg/topologyscheduling/topology_scheduling.go:240-252 | phase two on the shared counters, one worker action at a time in any order, ends in the recount |
| TopologyScheduling.CalculatePreFilterStateCache | pkg/topologyscheduling/topology_scheduling.go:192-254 | skipped exactly for a pod without the policy label; a state or a crash exactly if the policy exists in the pod's namespace, its selector parses and the snapshot can be listed; a crash only if an entry has no node; the state is fresh and has the view that the next three rows describe |
| TopologyScheduling.CycleMeans | pkg/topologyscheduling/topology_scheduling.go:192-216 | that view has the key, strategy and selector of the pod's own policy, and each value's last replicas |
| TopologyScheduling.CycleKeys | pkg/topologyscheduling/topology_scheduling.go:220-238 | a value has a counter exactly if a node that carries it under the policy's key passes the pod's affinity |
| TopologyScheduling.CycleCounts | pkg/topologyscheduling/topology_scheduling.go:240-251 | a counter is, modulo 2^32, the number of the snapshot's present, live pods of the pod's namespace that the policy's selector matches, on nodes that read the value |
| TopologyScheduling.FilterErrorIff | pkg/topologyscheduling/topology_scheduling.go:256-275 | Filter passes a pod without the label, and is in error exactly if a pod with it lacks node, cycle state or policy |
| TopologyScheduling.AddPod | pkg/topologyscheduling/topology_scheduling.go:309-323 | status and counters after adding a pod, for a pod without policy, a missing state and a present one |
| TopologyScheduling.RemovePod | pkg/topologyscheduling/topology_scheduling.go:325-339 | the same for removing one |
| TopologyScheduling.Reserve | pkg/topologyscheduling/topology_scheduling.go:391-406 | the same for reserving a node that is looked up by name |
| TopologyScheduling.Unreserve | pkg/topologyscheduling/topology_scheduling.go:408-421 | the same for giving it back |
| Incremental.ScanMoves | pkg/topologyscheduling/topology_scheduling.go:240-251 | when a pod joins or leaves a node, the recount of a value moves by one exactly if the pod counts there |
| Incremental.UpdateAgreesIffMirrored | pkg/topologyscheduling/topology_scheduling.go:69-85 | updating for one pod gives the recount of the changed snapshot if and only if a selected pod is live on a labelled node, or is not counted under "" on an unlabelled one |
| Incremental.RunAgrees | pkg/topologyscheduling/topology_scheduling.go:309-339 | after any run of such changes the updated counters are the recount of the final snapshot |
| Incremental.CountersStayNonNegative | pkg/topologyscheduling/topology_scheduling.go:325-339 | in such runs no counter becomes negative |
| Snapshots.CountsAgree | pkg/topologyscheduling/topology_scheduling.go:240-251 | the scheduler's sum over nodes equals the size of the descheduler's group for every value |
| Admission.CntMeans | pkg/descheduler/strategies/topologyscheduling.go:80-101 | the count that all cluster theorems use is the number of the cluster's live pods of the namespace that the policy's selector matches, on listed nodes that read the value |
| Admission.ViewCounts | pkg/topologyscheduling/topology_scheduling.go:226-251 | whatever affinity keyed it, a counter holds the number of the policy's live pods on that value |
| Admission.PolicyReachedMeans | pkg/topologyscheduling/topology_scheduling.go:441-457 | the plugin finds the policy reached exactly if all its values are keyed and have their replicas |
| Admission.FilterMeans | pkg/topologyscheduling/topology_scheduling.go:256-302 | Filter admits a node that passes the affinity exactly if the pod is selected, the node labelled, and the policy reached or the node's value short |
| Admission.FilterRefusals | pkg/topologyscheduling/topology_scheduling.go:273-301 | for a pod of the policy, Unschedulable if the selector does not match it; else UnschedulableAndUnresolvable exactly on nodes without the key, and Unschedulable exactly on nodes with it whose value is off the policy or counted and filled, unless the policy is found reached |
| Admission.FilterOnAnyNode | pkg/topologyscheduling/topology_scheduling.go:459-477 | without the affinity, Filter also admits unkeyed values of the policy, and reserving faults exactly on unkeyed values |
| Admission.ReserveAfterFilterIsSafe | pkg/topologyscheduling/topology_scheduling.go:391-406 | reserving an admitted node that passes the affinity does not fault |
| Admission.MoveCounts | pkg/topologyscheduling/topology_scheduling.go:256-301 | any pod that Filter passes adds one to its node's value if the policy selects it, with or without its label, and changes no other count; a pod of the policy is selected and its node labelled |
| Admission.AdmittedWhereShort | pkg/topologyscheduling/topology_scheduling.go:292-301 | while the policy is unreached a pod is admitted only to a value of the policy that is short |
| Admission.ExactFilling | pkg/topologyscheduling/topology_scheduling.go:256-301 | over any run of pods that Filter passes the deficit falls by one per pod of the policy and per stray pod that fills a gap, until it is zero, and stays zero |
| Admission.NoOverfilling | pkg/topologyscheduling/topology_scheduling.go:256-301 | until then no value shrinks, and each grows beyond its replicas, or beyond what it had, by no more than the stray pods that went to it when it was not short |
| Admission.BoundedAdmission | pkg/topologyscheduling/topology_scheduling.go:441-457 | if some short value is never placed upon, the pods a run admits, and the stray pods that fill gaps, are exactly what it takes from the deficit of the other values |
| Admission.NeverKeyedBoundsAdmission | pkg/topologyscheduling/topology_scheduling.go:441-457 | the same if some values of the policy, short or not, are keyed by no admitted pod: a whole run never admits more than the initial deficit of the other values |
| Admission.SchedulableIff | pkg/topologyscheduling/topology_scheduling.go:292-301 | while the policy is unreached some node admits the pod if and only if some short value has a node that passes its affinity |
| Admission.ReachedSchedulableIff | pkg/topologyscheduling/topology_scheduling.go:292-301 | once it is reached, if and only if the pod's affinity keys all values of the policy, and at least one value |
| Admission.ArrivalsNeverStall | pkg/topologyscheduling/topology_scheduling.go:256-302 | pods that can go to every value are all admitted, one per cycle, as long as they are not more than the deficit |
| Scoring.ScoreValue | pkg/topologyscheduling/topology_scheduling.go:487-495 | for a counted, short value of the policy, Fill scores the filled percentage rounded down, Balance one minus the percentage with its fraction cut off, any other strategy 0 |
| Scoring.ScoreElsewhere | pkg/topologyscheduling/topology_scheduling.go:341-380 | on any other node the score is 0, and the missing node is an error exactly for a pod with the label and a cycle state |
| Scoring.ScoreFollowsStrategy | pkg/topologyscheduling/topology_scheduling.go:341-380 | among short values Fill scores by and Balance against the filled share, compared by cross-multiplication, and strictly so if the shares are one percent apart, or two for Balance |
| Scoring.ScoreRange | pkg/topologyscheduling/topology_scheduling.go:487-495 | Fill scores lie in 0..99, Balance scores in -98..1, and Balance is not negative exactly while 50 times the count is below the replicas |
| EvictionOrder.LessIsStrictIffNotIdle | pkg/descheduler/strategies/topologyscheduling.go:151-165 | a pod is Less than itself exactly if it is Failed, Succeeded or Pending |
| EvictionOrder.LessTransitive | pkg/descheduler/strategies/topologyscheduling.go:151-165 | Less is transitive |
| EvictionOrder.BeforeIsLess | pkg/descheduler/strategies/topologyscheduling.go:151-165 | between pods of different names the sorted order is Less |
| EvictionOrder.LessMeans | pkg/descheduler/strategies/topologyscheduling.go:151-165 | a pod is Less exactly if it is Failed, Succeeded or Pending, or if neither is and the first differing letter of its name is smaller or its name is a proper beginning of the other |
| EvictionOrder.SortedMeaning | pkg/descheduler/strategies/topologyscheduling.go:151-165 | in a sorted list no running pod stands before a Failed, Succeeded or Pending one, and of two running pods the one with the smaller first differing letter, or the shorter name, stands first |
| EvictionOrder.TopoPairCount.Sort | pkg/descheduler/strategies/topologyscheduling.go:110-112 | the pods are sorted in place and permuted |
| Descheduler.LastNodeWins | pkg/descheduler/strategies/topologyscheduling.go:52-55 | a name maps to a node exactly if that node is the last one listed under its name |
| Descheduler.BuildNodeMap | pkg/descheduler/strategies/topologyscheduling.go:52-55 | the loop builds that map |
| Descheduler.GroupPods | pkg/descheduler/strategies/topologyscheduling.go:72-101 | exactly the values with a live pod on a known node get a group, the group holds those pods in order, and its count is their number |
| Descheduler.CheckTopoReached | pkg/descheduler/strategies/topologyscheduling.go:121-141 | true exactly if no group is short, whatever the flags and the order of iteration |
| Descheduler.ReachedMeaning | pkg/descheduler/strategies/topologyscheduling.go:121-141 | that verdict on the groups is the verdict on the listed pods |
| Descheduler.TopoReachedIff | pkg/descheduler/strategies/topologyscheduling.go:121-141 | without int32: every value with pods has no more replicas than pods, zero off the policy, and not so few that the difference wraps |
| Descheduler.EvictFirst | pkg/descheduler/strategies/topologyscheduling.go:113-116 | the pods are attempted from the front, and the index runs off the list exactly if more are to go than there are |
| Descheduler.EvictGroup | pkg/descheduler/strategies/topologyscheduling.go:106-116 | the attempted pods are the first of the group in eviction order, as many as the int32 difference says |
| Descheduler.EvictSurplus | pkg/descheduler/strategies/topologyscheduling.go:105-117 | the same for all groups, in any order of the map; up to a panic, the surplus of complete groups and then all pods of the sorted group at fault |
| Descheduler.DeschedulePolicy | pkg/descheduler/strategies/topologyscheduling.go:72-117 | one policy: nothing if the topology is reached, else exactly the surplus of every value; when it panics, and what was attempted until then |
| Descheduler.RemovePodsViolatingTopologySchedulingPolicy | pkg/descheduler/strategies/topologyscheduling.go:38-119 | without a lister or a list of policies nothing is attempted; else the log grows by one pass for each listed policy in turn, with that outcome, up to a panic |
| Strategy.EveryPolicyHasItsPass | pkg/descheduler/strategies/topologyscheduling.go:62-117 | the pass at a policy's place in the list is a pass on that policy and on the cluster its pods were listed in |
| Strategy.UnusablePolicyIsSkipped | pkg/descheduler/strategies/topologyscheduling.go:63-79 | a policy whose selector does not parse or whose pods cannot be listed gets no attempt and does not stop the others |
| Strategy.StrategyActs | pkg/descheduler/strategies/topologyscheduling.go:62-117 | if some listed policy has a value with pods that is short and another with too many, some pod of the latter is attempted |
| Strategy.AttemptsAreOnTheirNodes | pkg/descheduler/strategies/topologyscheduling.go:113-116 | every attempt is on a live selected pod of the cluster and names the node the pod runs on |
| Strategy.PanicLeaves | pkg/descheduler/strategies/topologyscheduling.go:105-117 | at a panic a value with negative replicas has had all its pods attempted in eviction order, and every other value nothing or its whole surplus |
| Descheduler.CrashesIff | pkg/descheduler/strategies/topologyscheduling.go:105-116 | the pass panics if and only if it acts and some value with pods has negative replicas whose difference to the count does not wrap |
| Convergence.ReachedIffNoneShort | pkg/descheduler/strategies/topologyscheduling.go:121-141 | as long as no int32 difference wraps, the descheduler's verdict holds exactly if no value with pods is short |
| Convergence.NeverCrashes | pkg/descheduler/strategies/topologyscheduling.go:105-116 | without negative replicas the strategy does not panic |
| Convergence.ActsIff | pkg/descheduler/strategies/topologyscheduling.go:102-117 | a pass attempts an eviction if and only if some value with pods is short and some value has too many |
| Convergence.AttemptsAreMembers | pkg/descheduler/strategies/topologyscheduling.go:113-116 | the attempts of a value are distinct live pods of that value on known nodes |
| Convergence.AttemptsAreDistinct | pkg/descheduler/strategies/topologyscheduling.go:105-117 | no pod is attempted twice in a pass |
| Convergence.EvictionBounds | pkg/descheduler/strategies/topologyscheduling.go:105-117 | whichever evictions succeed, a value keeps at least the smaller of its count and its replicas; if all do, an acting pass leaves exactly that |
| Convergence.EvictionPreference | pkg/descheduler/strategies/topologyscheduling.go:110-116 | an attempted pod is Less than every spared one of its value: Failed, Succeeded and Pending pods first, then the smallest names, letter by letter |
| Convergence.SettledIsQuiet | pkg/descheduler/strategies/topologyscheduling.go:102-117 | if the policy is reached or nothing exceeds its replicas, the strategy does not panic and attempts nothing, also with negative replicas that do not wrap |
| Convergence.SettledStaysIff | pkg/topologyscheduling/topology_scheduling.go:258-260 | one more selected pod, checked by Filter or not, keeps a cluster in that state if and only if the policy is reached or the pod's value short |
| Convergence.FightIff | pkg/descheduler/strategies/topologyscheduling.go:102-117 | in such a cluster one more selected pod makes the next pass attempt an eviction if and only if some value with pods is short and the pod's own value is not |
| Convergence.NeverFight | pkg/topologyscheduling/topology_scheduling.go:256-301 | after any run of pods that Filter passes, from a cluster without selected pods, under quota or in overflow, the strategy neither panics nor attempts anything, if each stray pod went where there was room and no difference can wrap |
| Convergence.PassIsIdempotent | pkg/descheduler/strategies/topologyscheduling.go:72-117 | after a pass whose evictions all succeed a second pass attempts nothing |
| Convergence.VerdictsRelated | pkg/descheduler/strategies/topologyscheduling.go:121-141 | when all values are keyed, the plugin's verdict holds exactly if the descheduler's does and every value with positive replicas has a pod |
| Convergence.ValuesPartition | pkg/descheduler/strategies/topologyscheduling.go:80-101 | the groups of all values add up to the live pods of the policy on known nodes |
| Convergence.PodsBalance | pkg/descheduler/strategies/topologyscheduling.go:80-117 | the live pods of the policy and those missing are together as many as the replicas wanted and the pods too many |
| Convergence.EvictedAreMissing | pkg/descheduler/strategies/topologyscheduling.go:105-117 | with the right total, an acting pass evicts exactly as many pods as are then missing |
| Convergence.Convergence | pkg/descheduler/strategies/topologyscheduling.go:80-117 | with the right total, one pass and as many admissions of the policy's pods as evictions, among any other pods, leave the policy met exactly, if and only if no stray pod came, and it was met before or some value with pods was short |
| Convergence.EvictedPodsComeBack | pkg/topologyscheduling/topology_scheduling.go:192-302 | the evicted pods, coming back as pods that can go to every value, are all admitted, the policy is met exactly, and every further pass attempts nothing |
| Convergence.MetIsQuiet | pkg/descheduler/strategies/topologyscheduling.go:102-117 | a policy that is met exactly is left alone |
| Interleaving.BooksBalance | pkg/descheduler/strategies/topologyscheduling.go:102-117 | over any interleaving of scheduling cycles, passes with failing evictions and removals by others, what is missing and what is too many change by exactly what the steps enter: passes never add to what is missing, and successful evictions come one by one from what is too many |
| Interleaving.EvictionsAreBounded | pkg/topologyscheduling/topology_scheduling.go:256-302 | without removals by others, all passes together evict no more pods than were too many at the start or came as stray pods to values not short; the policy's own pods never cost an eviction |
| Counterexamples.EmptyValueIsNotSeen | pkg/descheduler/strategies/topologyscheduling.go:121-141 | two pods in one zone where each of two zones should have one: no pass attempts anything |
| Counterexamples.NegativeReplicasCrash | pkg/descheduler/strategies/topologyscheduling.go:105-116 | replicas -1 and 2 with one pod each: the pass panics |
| Counterexamples.StraysMakeThemFight | pkg/topologyscheduling/topology_scheduling.go:258-260 | replicas 0 and 2: Filter passes one pod of the policy and one stray pod, and every pass then attempts an eviction |
| Counterexamples.FullUnkeyedValueIsAdmitted | pkg/topologyscheduling/topology_scheduling.go:459-477 | a zone with all its replicas that the pod's affinity does not key: Filter passes it and reserving faults |
| Counterexamples.TerminatingPodIsSubtracted | pkg/topologyscheduling/topology_scheduling.go:325-339 | a terminating pod is removed in a dry run: the counter is -1, and a recount finds none |
| Counterexamples.UnlabelledNodeIsRecounted | pkg/topologyscheduling/topology_scheduling.go:240-251 | a pod is added on a node without the label while "" is keyed: the counter stays 0, and a recount finds one |

## Assumptions

Node names are unique, and so are pod names within a namespace, as the API server sees to; the two programs look
at the same nodes. The policy does not change during a cycle. Counts as large as 2^31 are excluded only where a
lemma says so (`Sound`, or a bound in the requires); the counting, updating and grouping results hold with
wrap-around. Theorems about whole runs take, for pods of the policy, nodes that pass the pod's node affinity,
which is the business of another plugin; every pod may have an affinity of its own. Pods of other policies and
of none may come at any time, as Filter passes them; those that the selector selects count as stray pods.

## Left out

- `sort.Sort` is library code; the sort is an insertion sort that uses only Less and Swap, as package sort itself uses for short slices.
- `workqueue.ParallelizeUntil` is library code: each index is taken to run once and to have finished on return. The limit of 32 workers is not modelled; any number may be under way.
- The pod evictor is library code: every eviction succeeds or fails as it likes. Its limits per node, dry runs and the event text are not modelled.
- Label selectors and node affinity are predicates. An empty selector, for which the API server refuses the strategy's list call, is only covered as a failed list.
- Score: uses exact rationals; the rounding of float64 is not modelled, so a score may differ by one from the program's. It is modelled for counters that are not negative, which `CountersStayNonNegative` provides.
- EvictionBounds: and the theorems built on it are stated for replicas that are not negative (`Proper`), because with negative ones an acting pass may panic (`CrashesIff`). `SettledIsQuiet`, `ReachedIffNoneShort` and `NeverFight` only ask that no difference wraps.
- The readiness filter on the descheduler's nodes (pkg/descheduler/descheduler.go) is not modelled; a pod on a node that is not listed counts for no value.
- Removals of pods by users are steps of `Interleaving` only, not of the runs in `Admission`.
- Plugin construction, informers, listers, clients, generated code, command lines and the multi-cluster plugin are wiring.
- PreFilter, the storage of the cycle state, NormalizeScore and the extension getters add nothing to the members above.
- UpdatePlacement and the policy status are not used by the code.
