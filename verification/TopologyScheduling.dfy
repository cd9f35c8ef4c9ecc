/** The scheduler plugin: PreFilter's counting, Filter, and the calls that keep the counters current. */
module TopologyScheduling {
  import opened Cluster
  import opened Seqs
  import opened PolicyMap
  import opened Counting
  import opened ParallelCount
  import opened Updates
  import opened PreFilterStates

  const TOPOLOGY_SCHEDULING_LABEL_KEY := "topology-scheduling-policy.scheduling.sigs.k8s.io"

  /** The policy lister. */
  type Policies = map<PolicyRef, PolicySpec>

  predicate PodRequiresTopologyScheduling(pod: Pod) {
    TOPOLOGY_SCHEDULING_LABEL_KEY in pod.labels
  }

  function PolicyRefOf(pod: Pod): PolicyRef
    requires PodRequiresTopologyScheduling(pod)
  {
    PolicyRef(pod.namespace, pod.labels[TOPOLOGY_SCHEDULING_LABEL_KEY])
  }

  /** The pod's policy exists and its selector parses. */
  predicate HasPolicy(policies: Policies, pod: Pod) {
    && PodRequiresTopologyScheduling(pod)
    && PolicyRefOf(pod) in policies
    && policies[PolicyRefOf(pod)].selector.Some?
  }

  /** Phase one: a fresh zero counter for the value of every labelled node that passes the affinity. */
  method KeyNodes(s: PreFilterState, infos: seq<NodeInfo>, affinity: Node -> bool)
    requires s.tpPairToMatchNum == map[]
    modifies s
    ensures s.Valid() && s.tpPairToMatchNum.Keys == KeyedPairs(infos, affinity, s.constraint.topologyKey)
    ensures forall pair | pair in s.tpPairToMatchNum ::
      fresh(s.tpPairToMatchNum[pair]) && s.tpPairToMatchNum[pair].value == 0
  {
    var key := s.constraint.topologyKey;
    for i := 0 to |infos|
      invariant s.Valid() && s.tpPairToMatchNum.Keys == KeyedPairs(infos[..i], affinity, key)
      invariant forall pair | pair in s.tpPairToMatchNum ::
        fresh(s.tpPairToMatchNum[pair]) && s.tpPairToMatchNum[pair].value == 0
    {
      KeyedPairsStep(infos, i, affinity, key);
      if infos[i].node.None? {
        continue;
      }
      var node := infos[i].node.value;
      if !affinity(node) {
        continue;
      }
      if key !in node.labels {
        continue;
      }
      ghost var before := s.tpPairToMatchNum;
      var counter := new Counter(0);
      assert forall pair | pair in before :: before[pair] != counter;
      s.tpPairToMatchNum := s.tpPairToMatchNum[TopologyPair(key, node.labels[key]) := counter];
    }
    assert infos[..|infos|] == infos;
  }

  lemma KeyedPairsStep(infos: seq<NodeInfo>, i: nat, affinity: Node -> bool, key: string)
    requires i < |infos|
    ensures KeyedPairs(infos[..i + 1], affinity, key)
         == KeyedPairs(infos[..i], affinity, key)
            + if Keys(infos[i], affinity, key) then {TopologyPair(key, DomainOf(infos[i].node.value, key))} else {}
  {
    var before, after := infos[..i], infos[..i + 1];
    assert forall j | 0 <= j < i :: before[j] == after[j];
    assert after[i] == infos[i];
  }

  /** Phase two: the workers run their node tasks, one indivisible action of one of them at a time. */
  method ParallelizeProcessNode(s: PreFilterState, ghost job: Job, infos: seq<NodeInfo>, ns: string)
    requires s.Valid() && AllPresent(infos)
    requires job.infos == infos && job.c == s.constraint && job.ns == ns
    requires s.Counts() == Initial(job).counters
    modifies s.tpPairToMatchNum.Values
    ensures s.Counts() == Recount(infos, job.affinity, s.constraint, ns)
  {
    var stages := seq(|infos|, i => Waiting);
    forall pair | pair in job.Pairs() {
      InitialExact(job, pair);
    }
    assert State(stages, s.Counts()) == Initial(job);
    while exists i :: 0 <= i < |stages| && stages[i] != Finished
      invariant WellFormed(job, State(stages, s.Counts()))
      invariant forall pair | pair in job.Pairs() :: CountsLanded(job, State(stages, s.Counts()), pair)
      decreases Sum(Work(State(stages, s.Counts())))
    {
      var i :| 0 <= i < |stages| && stages[i] != Finished;
      ghost var st := State(stages, s.Counts());
      StepUsesWork(job, st, i);
      stages := ProcessNodeAction(s, job, stages, i, infos[i], ns);
      forall pair | pair in job.Pairs() {
        StepExact(job, st, i, pair);
      }
    }
    FinishedIsRecount(job, State(stages, s.Counts()));
  }

  method ProcessNodeAction(s: PreFilterState, ghost job: Job, stages: seq<Stage>, i: nat, nodeInfo: NodeInfo,
                           ns: string)
    returns (stages': seq<Stage>)
    requires s.Valid() && job.c == s.constraint && job.ns == ns
    requires WellFormed(job, State(stages, s.Counts()))
    requires i < |stages| && stages[i] != Finished && nodeInfo == job.infos[i]
    modifies s.tpPairToMatchNum.Values
    ensures State(stages', s.Counts()) == Step(job, State(stages, old(s.Counts())), i)
  {
    var node := nodeInfo.node.value;
    var pair := TopologyPair(s.constraint.topologyKey, DomainOf(node, s.constraint.topologyKey));
    assert StageOk(job, stages[i], i);
    match stages[i]
    case Waiting =>
      stages' := stages[i := if pair in s.tpPairToMatchNum then Located else Finished];
    case Located =>
      var count := CountPodsMatchSelector(nodeInfo.pods, s.constraint.selector, ns);
      stages' := stages[i := Tallied(count)];
    case Tallied(count) =>
      var tpCount := s.tpPairToMatchNum[pair];
      tpCount.value := Add(tpCount.value, Wrap(count));
      stages' := stages[i := Finished];
  }

  /** What Filter and Score read from the cycle state. */
  datatype CycleView = CycleView(constraint: Constraint, scheduleStrategy: string, counts: Counts)

  /** The cycle state that PreFilter leaves for a pod. */
  function CycleFor(policies: Policies, infos: seq<NodeInfo>, pod: Pod, affinity: Node -> bool): Option<CycleView> {
    if HasPolicy(policies, pod) then
      var spec := policies[PolicyRefOf(pod)];
      Some(CycleView(ConstraintOf(spec), spec.scheduleStrategy,
                     Recount(infos, affinity, ConstraintOf(spec), pod.namespace)))
    else None
  }

  /**
   There is a state exactly for a pod whose policy exists in its namespace and has a selector that parses,
   and it carries that policy's key, strategy and selector, and for each value the replicas named last.
   */
  lemma CycleMeans(policies: Policies, infos: seq<NodeInfo>, pod: Pod, affinity: Node -> bool)
    ensures CycleFor(policies, infos, pod, affinity).Some? <==>
      && TOPOLOGY_SCHEDULING_LABEL_KEY in pod.labels
      && var ref := PolicyRef(pod.namespace, pod.labels[TOPOLOGY_SCHEDULING_LABEL_KEY]);
         ref in policies && policies[ref].selector.Some?
    ensures CycleFor(policies, infos, pod, affinity).Some? ==>
      var spec := policies[PolicyRef(pod.namespace, pod.labels[TOPOLOGY_SCHEDULING_LABEL_KEY])];
      var s := CycleFor(policies, infos, pod, affinity).value;
      && s.scheduleStrategy == spec.scheduleStrategy
      && s.constraint.topologyKey == spec.topologyKey && s.constraint.selector == spec.selector.value
      && forall v, r: int32 ::
           v in s.constraint.schedulePolicy && s.constraint.schedulePolicy[v] == r
           <==> var dp := spec.deployPlacement;
                exists i :: 0 <= i < |dp| && dp[i] == SchedulePolicy(v, r) && forall j | i < j < |dp| :: dp[j].name != v
  {
    if HasPolicy(policies, pod) {
      ConstraintMeans(policies[PolicyRefOf(pod)]);
    }
  }

  /** A value has a counter exactly if a node that carries it under the policy's key passes the pod's affinity. */
  lemma CycleKeys(policies: Policies, infos: seq<NodeInfo>, pod: Pod, affinity: Node -> bool, pair: TopologyPair)
    requires CycleFor(policies, infos, pod, affinity).Some?
    ensures var spec := policies[PolicyRef(pod.namespace, pod.labels[TOPOLOGY_SCHEDULING_LABEL_KEY])];
            pair in CycleFor(policies, infos, pod, affinity).value.counts <==>
              && pair.key == spec.topologyKey
              && exists i :: && 0 <= i < |infos| && infos[i].node.Some? && affinity(infos[i].node.value)
                             && spec.topologyKey in infos[i].node.value.labels
                             && infos[i].node.value.labels[spec.topologyKey] == pair.value
  {
    var key := policies[PolicyRefOf(pod)].topologyKey;
    assert forall i | 0 <= i < |infos| && Keys(infos[i], affinity, key) ::
      TopologyPair(key, DomainOf(infos[i].node.value, key)) in KeyedPairs(infos, affinity, key);
  }

  /**
   A counter is the number of the snapshot's pods that are present, live, in the pod's namespace and
   selected by the policy, on nodes whose label under the policy's key reads as the counter's value.
   */
  lemma CycleCounts(policies: Policies, infos: seq<NodeInfo>, pod: Pod, affinity: Node -> bool, pair: TopologyPair)
    requires CycleFor(policies, infos, pod, affinity).Some?
    requires pair in CycleFor(policies, infos, pod, affinity).value.counts
    ensures var spec := policies[PolicyRef(pod.namespace, pod.labels[TOPOLOGY_SCHEDULING_LABEL_KEY])];
            CycleFor(policies, infos, pod, affinity).value.counts[pair]
            == Wrap(|set i, j |
                 && 0 <= i < |infos| && 0 <= j < |infos[i].pods| && infos[i].node.Some? && infos[i].pods[j].Some?
                 && (if spec.topologyKey in infos[i].node.value.labels
                     then infos[i].node.value.labels[spec.topologyKey] else "") == pair.value
                 && !infos[i].pods[j].value.terminating && infos[i].pods[j].value.namespace == pod.namespace
                 && spec.selector.value(infos[i].pods[j].value.labels) :: (i, j)|)
  {
    var spec := policies[PolicyRefOf(pod)];
    var places := set i, j |
      && 0 <= i < |infos| && 0 <= j < |infos[i].pods| && infos[i].node.Some? && infos[i].pods[j].Some?
      && (if spec.topologyKey in infos[i].node.value.labels
          then infos[i].node.value.labels[spec.topologyKey] else "") == pair.value
      && !infos[i].pods[j].value.terminating && infos[i].pods[j].value.namespace == pod.namespace
      && spec.selector.value(infos[i].pods[j].value.labels) :: (i, j);
    ScanCountIsSize(infos, ConstraintOf(spec), pod.namespace, pair.value);
    assert places == Places(infos, ConstraintOf(spec), pod.namespace, pair.value);
  }

  /** Skipped: the pod asks for no policy; Rejected: an error was returned. */
  datatype PreFilterResult =
    | Skipped
    | Rejected
    | Crashed
    | Ready(state: PreFilterState)

  /**
   Crashed: a snapshot entry without a node is skipped by phase one but dereferenced by phase two. `snapshot`
   is what listing the node infos gives.
   */
  method CalculatePreFilterStateCache(policies: Policies, snapshot: Option<seq<NodeInfo>>, pod: Pod,
                                      affinity: Node -> bool)
    returns (r: PreFilterResult)
    ensures r.Skipped? <==> TOPOLOGY_SCHEDULING_LABEL_KEY !in pod.labels
    ensures r.Ready? || r.Crashed? <==>
      && TOPOLOGY_SCHEDULING_LABEL_KEY in pod.labels && snapshot.Some?
      && var ref := PolicyRef(pod.namespace, pod.labels[TOPOLOGY_SCHEDULING_LABEL_KEY]);
         ref in policies && policies[ref].selector.Some?
    ensures r.Crashed? ==> exists i :: 0 <= i < |snapshot.value| && snapshot.value[i].node.None?
    ensures r.Ready? ==> forall i | 0 <= i < |snapshot.value| :: snapshot.value[i].node.Some?
    ensures r.Ready? ==> fresh(r.state) && fresh(r.state.tpPairToMatchNum.Values) && r.state.Valid()
    ensures r.Ready? ==>
      Some(CycleView(r.state.constraint, r.state.scheduleStrategy, r.state.Counts()))
      == CycleFor(policies, snapshot.value, pod, affinity)
  {
    if TOPOLOGY_SCHEDULING_LABEL_KEY !in pod.labels {
      return Skipped;
    }
    var name := PolicyRef(pod.namespace, pod.labels[TOPOLOGY_SCHEDULING_LABEL_KEY]);
    if name !in policies {
      return Rejected;
    }
    var tsp := policies[name];
    if snapshot.None? {
      return Rejected;
    }
    if tsp.selector.None? {
      return Rejected;
    }
    var schedulePolicy := CovertPolicy(tsp.deployPlacement);
    var constraint := Constraint(tsp.topologyKey, schedulePolicy, tsp.selector.value);
    r := CountPods(constraint, tsp.scheduleStrategy, snapshot.value, affinity, pod.namespace);
  }

  /** Both phases on a new state. */
  method CountPods(constraint: Constraint, strategy: string, infos: seq<NodeInfo>, affinity: Node -> bool, ns: string)
    returns (r: PreFilterResult)
    ensures (r.Ready? && AllPresent(infos)) || (r.Crashed? && !AllPresent(infos))
    ensures r.Ready? ==>
      && fresh(r.state) && fresh(r.state.tpPairToMatchNum.Values) && r.state.Valid()
      && r.state.constraint == constraint && r.state.scheduleStrategy == strategy
      && r.state.Counts() == Recount(infos, affinity, constraint, ns)
  {
    var s := new PreFilterState(constraint, strategy);
    KeyNodes(s, infos, affinity);
    if exists i :: 0 <= i < |infos| && infos[i].node.None? {
      return Crashed;
    }
    ghost var job := Job(infos, affinity, constraint, ns);
    ParallelizeProcessNode(s, job, infos, ns);
    return Ready(s);
  }

  datatype Status = Success | Error | Unschedulable | UnschedulableAndUnresolvable

  predicate CheckPolicyRequirementReached(topoKey: string, policy: map<string, int32>, counts: Counts) {
    forall value | value in policy ::
      TopologyPair(topoKey, value) in counts && counts[TopologyPair(topoKey, value)] >= policy[value]
  }

  predicate CheckTopoValueReached(topoKey: string, topoValue: string, policy: map<string, int32>, counts: Counts) {
    topoValue in policy ==>
      TopologyPair(topoKey, topoValue) in counts && counts[TopologyPair(topoKey, topoValue)] >= policy[topoValue]
  }

  function Filter(policies: Policies, cycle: Option<CycleView>, pod: Pod, node: Option<Node>): Status {
    if !PodRequiresTopologyScheduling(pod) then Success
    else if node.None? then Error
    else if cycle.None? then Error
    else if PolicyRefOf(pod) !in policies then Error
    else
      var s := cycle.value;
      if !s.constraint.selector(pod.labels) then Unschedulable
      else
        var tpKey := policies[PolicyRefOf(pod)].topologyKey;
        if tpKey !in node.value.labels then UnschedulableAndUnresolvable
        else if CheckPolicyRequirementReached(tpKey, s.constraint.schedulePolicy, s.counts) then Success
        else if !CheckTopoValueReached(tpKey, node.value.labels[tpKey], s.constraint.schedulePolicy, s.counts)
        then Success
        else Unschedulable
  }

  /** Filter passes a pod that asks for no policy, and is in error exactly if node, cycle state or policy is missing. */
  lemma FilterErrorIff(policies: Policies, cycle: Option<CycleView>, pod: Pod, node: Option<Node>)
    ensures TOPOLOGY_SCHEDULING_LABEL_KEY !in pod.labels ==> Filter(policies, cycle, pod, node) == Success
    ensures Filter(policies, cycle, pod, node) == Error <==>
      && TOPOLOGY_SCHEDULING_LABEL_KEY in pod.labels
      && (node.None? || cycle.None?
          || PolicyRef(pod.namespace, pod.labels[TOPOLOGY_SCHEDULING_LABEL_KEY]) !in policies)
  {
  }

  method AddPod(cycle: PreFilterState?, podToSchedule: Pod, podToAdd: Pod, nodeInfo: NodeInfo)
    returns (status: Status, fault: bool)
    requires cycle != null ==> cycle.Valid()
    modifies if cycle == null then {} else cycle.tpPairToMatchNum.Values
    ensures status == if PodRequiresTopologyScheduling(podToSchedule) && cycle == null then Error else Success
    ensures cycle == null ==> !fault
    ensures cycle != null ==>
      var c, ns := cycle.constraint, podToSchedule.namespace;
      && fault == (PodRequiresTopologyScheduling(podToSchedule)
                   && Faults(c, ns, old(cycle.Counts()).Keys, podToAdd, nodeInfo.node))
      && cycle.Counts() == if PodRequiresTopologyScheduling(podToSchedule) && !fault
                           then Updated(c, ns, old(cycle.Counts()), podToAdd, nodeInfo.node, 1)
                           else old(cycle.Counts())
  {
    if !PodRequiresTopologyScheduling(podToSchedule) {
      return Success, false;
    }
    if cycle == null {
      return Error, false;
    }
    fault := cycle.UpdateWithPod(podToAdd, podToSchedule, nodeInfo.node, 1);
    status := Success;
  }

  method RemovePod(cycle: PreFilterState?, podToSchedule: Pod, podToRemove: Pod, nodeInfo: NodeInfo)
    returns (status: Status, fault: bool)
    requires cycle != null ==> cycle.Valid()
    modifies if cycle == null then {} else cycle.tpPairToMatchNum.Values
    ensures status == if PodRequiresTopologyScheduling(podToSchedule) && cycle == null then Error else Success
    ensures cycle == null ==> !fault
    ensures cycle != null ==>
      var c, ns := cycle.constraint, podToSchedule.namespace;
      && fault == (PodRequiresTopologyScheduling(podToSchedule)
                   && Faults(c, ns, old(cycle.Counts()).Keys, podToRemove, nodeInfo.node))
      && cycle.Counts() == if PodRequiresTopologyScheduling(podToSchedule) && !fault
                           then Updated(c, ns, old(cycle.Counts()), podToRemove, nodeInfo.node, -1)
                           else old(cycle.Counts())
  {
    if !PodRequiresTopologyScheduling(podToSchedule) {
      return Success, false;
    }
    if cycle == null {
      return Error, false;
    }
    fault := cycle.UpdateWithPod(podToRemove, podToSchedule, nodeInfo.node, -1);
    status := Success;
  }

  /** `nodeInfo` is the outcome of looking the node's name up in the snapshot. */
  method Reserve(cycle: PreFilterState?, pod: Pod, nodeInfo: Option<NodeInfo>)
    returns (status: Status, fault: bool)
    requires cycle != null ==> cycle.Valid()
    modifies if cycle == null then {} else cycle.tpPairToMatchNum.Values
    ensures status == if PodRequiresTopologyScheduling(pod) && (cycle == null || nodeInfo.None?) then Error else Success
    ensures cycle == null || nodeInfo.None? ==> !fault
    ensures cycle != null && nodeInfo.None? ==> cycle.Counts() == old(cycle.Counts())
    ensures cycle != null && nodeInfo.Some? ==>
      var c, ns, node := cycle.constraint, pod.namespace, nodeInfo.value.node;
      && fault == (PodRequiresTopologyScheduling(pod) && Faults(c, ns, old(cycle.Counts()).Keys, pod, node))
      && cycle.Counts() == if PodRequiresTopologyScheduling(pod) && !fault
                           then Updated(c, ns, old(cycle.Counts()), pod, node, 1) else old(cycle.Counts())
  {
    if !PodRequiresTopologyScheduling(pod) {
      return Success, false;
    }
    if cycle == null {
      return Error, false;
    }
    if nodeInfo.None? {
      return Error, false;
    }
    fault := cycle.UpdateWithPod(pod, pod, nodeInfo.value.node, 1);
    status := Success;
  }

  /** Taking a reservation back. There is no status to return. */
  method Unreserve(cycle: PreFilterState?, pod: Pod, nodeInfo: Option<NodeInfo>) returns (fault: bool)
    requires cycle != null ==> cycle.Valid()
    modifies if cycle == null then {} else cycle.tpPairToMatchNum.Values
    ensures cycle == null || nodeInfo.None? ==> !fault
    ensures cycle != null && nodeInfo.None? ==> cycle.Counts() == old(cycle.Counts())
    ensures cycle != null && nodeInfo.Some? ==>
      var c, ns, node := cycle.constraint, pod.namespace, nodeInfo.value.node;
      && fault == (PodRequiresTopologyScheduling(pod) && Faults(c, ns, old(cycle.Counts()).Keys, pod, node))
      && cycle.Counts() == if PodRequiresTopologyScheduling(pod) && !fault
                           then Updated(c, ns, old(cycle.Counts()), pod, node, -1) else old(cycle.Counts())
  {
    if !PodRequiresTopologyScheduling(pod) {
      return false;
    }
    if cycle == null {
      return false;
    }
    if nodeInfo.None? {
      return false;
    }
    fault := cycle.UpdateWithPod(pod, pod, nodeInfo.value.node, -1);
  }
}
