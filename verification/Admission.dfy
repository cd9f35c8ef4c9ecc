/** Runs of scheduling cycles: how the pods admitted by Filter fill the policy, and why the two controllers agree. */
module Admission {
  import opened Cluster
  import opened Seqs
  import opened PolicyMap
  import opened Counting
  import opened Updates
  import opened TopologyScheduling
  import opened Descheduler
  import opened Snapshots

  /** One policy, as the lister serves it throughout. */
  datatype Env = Env(policies: Policies, ref: PolicyRef) {
    predicate Usable() { ref in policies && policies[ref].selector.Some? }

    function C(): Constraint
      requires Usable()
    {
      ConstraintOf(policies[ref])
    }

    function Key(): string
      requires Usable()
    {
      C().topologyKey
    }

    function Policy(): map<string, int32>
      requires Usable()
    {
      C().schedulePolicy
    }
  }

  function Cnt(env: Env, cl: ClusterState, v: string): nat
    requires env.Usable()
  {
    |Members(env.C(), env.ref.namespace, cl, v)|
  }

  /** Names are unique, as the API server sees to, and the pods can be counted in 32 bits. */
  predicate Sound(env: Env, cl: ClusterState) {
    && env.Usable()
    && DistinctNodes(cl.nodes) && DistinctPods(cl.pods)
    && |cl.pods| <= MAX_INT32
  }

  /** The count of a value is the number of the cluster's live pods that the policy selects on its nodes. */
  lemma CntMeans(env: Env, cl: ClusterState, v: string)
    requires Sound(env, cl)
    ensures var spec := env.policies[env.ref];
            Cnt(env, cl, v)
            == |set p | && p in cl.pods && !p.terminating && p.namespace == env.ref.namespace
                        && spec.selector.value(p.labels)
                        && (exists n :: n in cl.nodes && n.name == p.nodeName
                              && (if spec.topologyKey in n.labels then n.labels[spec.topologyKey] else "") == v)
                        :: p|
  {
    var spec, members := env.policies[env.ref], Members(env.C(), env.ref.namespace, cl, v);
    var counted := set p | && p in cl.pods && !p.terminating && p.namespace == env.ref.namespace
                           && spec.selector.value(p.labels)
                           && (exists n :: n in cl.nodes && n.name == p.nodeName
                                 && (if spec.topologyKey in n.labels then n.labels[spec.topologyKey] else "") == v)
                           :: p;
    MembersDistinct(env.C(), env.ref.namespace, cl, v);
    DistinctSize(members);
    forall p | p in cl.pods ensures p in counted <==> p in members {
      MembersAre(env.C(), env.ref.namespace, cl, v, p);
      NodeOf(cl, p.nodeName);
    }
    forall p | p in members ensures p in cl.pods {
      MembersAre(env.C(), env.ref.namespace, cl, v, p);
    }
    assert counted == set p | p in members;
  }

  lemma NodeOf(cl: ClusterState, name: string)
    requires DistinctNodes(cl.nodes)
    ensures forall n | n in cl.nodes && n.name == name :: name in NodeMapOf(cl.nodes) && NodeMapOf(cl.nodes)[name] == n
    ensures name in NodeMapOf(cl.nodes) ==> exists n :: n in cl.nodes && n.name == name
  {
    NodeMapLookup(cl.nodes, name);
    if i :| 0 <= i < |cl.nodes| && cl.nodes[i].name == name {
      assert cl.nodes[i] in cl.nodes;
    }
  }

  /** The cycle state after PreFilter has run for a pod with this node affinity. */
  function ViewOf(env: Env, cl: ClusterState, affinity: Node -> bool): CycleView
    requires env.Usable()
  {
    CycleView(env.C(), env.policies[env.ref].scheduleStrategy,
              Recount(SnapshotOf(cl), affinity, env.C(), env.ref.namespace))
  }

  predicate Governed(env: Env, pod: Pod) {
    PodRequiresTopologyScheduling(pod) && PolicyRefOf(pod) == env.ref
  }

  /** A pod, the outcome of its node affinity, and the node it is to be bound to. */
  datatype Move = Move(pod: Pod, affinity: Node -> bool, node: Node)

  function Place(cl: ClusterState, m: Move): ClusterState {
    cl.(pods := cl.pods + [m.pod.(nodeName := m.node.name)])
  }

  /** The cycle state that PreFilter leaves for a pod of whatever policy. */
  function CycleOf(env: Env, cl: ClusterState, pod: Pod, affinity: Node -> bool): Option<CycleView> {
    CycleFor(env.policies, SnapshotOf(cl), pod, affinity)
  }

  /**
   One scheduling cycle: Filter passes the pod, whether it asks for this policy, for another one or for
   none. The node affinity is needed of the policy's own pods only.
   */
  predicate Admitted(env: Env, cl: ClusterState, m: Move)
    requires env.Usable()
  {
    && m.node in cl.nodes && !m.pod.terminating
    && DistinctPods(Place(cl, m).pods)
    && (Governed(env, m.pod) ==> m.affinity(m.node))
    && Filter(env.policies, CycleOf(env, cl, m.pod, m.affinity), m.pod, Some(m.node)) == Success
  }

  /** The policy counts the pod, but Filter does not hold the pod against this policy. */
  predicate Stray(env: Env, pod: Pod)
    requires env.Usable()
  {
    Selected(env.C(), env.ref.namespace, pod) && !Governed(env, pod)
  }

  /** Every value of the policy has its replicas. */
  ghost predicate Reached(env: Env, cl: ClusterState)
    requires env.Usable()
  {
    forall v | v in env.Policy() :: Cnt(env, cl, v) >= env.Policy()[v]
  }

  predicate KeyedFor(env: Env, cl: ClusterState, affinity: Node -> bool, v: string)
    requires env.Usable()
  {
    TopologyPair(env.Key(), v) in KeyedPairs(SnapshotOf(cl), affinity, env.Key())
  }

  lemma CntFits(env: Env, cl: ClusterState, v: string)
    requires Sound(env, cl)
    ensures Cnt(env, cl, v) <= |cl.pods| <= MAX_INT32
  {
  }

  /** A counter of the cycle state holds the number of pods, whatever the affinity that keyed it. */
  lemma ViewCounts(env: Env, cl: ClusterState, affinity: Node -> bool, v: string)
    requires Sound(env, cl)
    ensures var counts := ViewOf(env, cl, affinity).counts;
            && (TopologyPair(env.Key(), v) in counts <==> KeyedFor(env, cl, affinity, v))
            && (KeyedFor(env, cl, affinity, v) ==> counts[TopologyPair(env.Key(), v)] == Cnt(env, cl, v))
  {
    CountsAgree(env.C(), env.ref.namespace, cl, v);
    CntFits(env, cl, v);
  }

  lemma OwnValueKeyed(env: Env, cl: ClusterState, affinity: Node -> bool, node: Node)
    requires Sound(env, cl) && node in cl.nodes && affinity(node) && env.Key() in node.labels
    ensures KeyedFor(env, cl, affinity, node.labels[env.Key()])
  {
    var i :| 0 <= i < |cl.nodes| && cl.nodes[i] == node;
    assert Keys(SnapshotOf(cl)[i], affinity, env.Key());
  }

  lemma PolicyReachedMeans(env: Env, cl: ClusterState, affinity: Node -> bool)
    requires Sound(env, cl)
    ensures CheckPolicyRequirementReached(env.Key(), env.Policy(), ViewOf(env, cl, affinity).counts)
       <==> Reached(env, cl) && forall v | v in env.Policy() :: KeyedFor(env, cl, affinity, v)
  {
    forall v | v in env.Policy() {
      ViewCounts(env, cl, affinity, v);
    }
  }

  /** Filter, in terms of the pods in the cluster, for a pod of the policy on a node that passes its affinity. */
  lemma FilterMeans(env: Env, cl: ClusterState, m: Move)
    requires Sound(env, cl) && Governed(env, m.pod) && m.node in cl.nodes && m.affinity(m.node)
    ensures Filter(env.policies, Some(ViewOf(env, cl, m.affinity)), m.pod, Some(m.node)) == Success
       <==> && Selected(env.C(), env.ref.namespace, m.pod) && env.Key() in m.node.labels
            && var v := m.node.labels[env.Key()];
               || (Reached(env, cl) && forall w | w in env.Policy() :: KeyedFor(env, cl, m.affinity, w))
               || (v in env.Policy() && Cnt(env, cl, v) < env.Policy()[v])
  {
    PolicyReachedMeans(env, cl, m.affinity);
    if env.Key() in m.node.labels {
      OwnValueKeyed(env, cl, m.affinity, m.node);
      ViewCounts(env, cl, m.affinity, m.node.labels[env.Key()]);
    }
  }

  lemma PlaceCounts(env: Env, cl: ClusterState, m: Move, v: string)
    requires env.Usable() && DistinctNodes(cl.nodes) && m.node in cl.nodes && !m.pod.terminating
    ensures Cnt(env, Place(cl, m), v)
         == Cnt(env, cl, v)
            + if Selected(env.C(), env.ref.namespace, m.pod) && DomainOf(m.node, env.Key()) == v then 1 else 0
  {
    NodeMapLookup(cl.nodes, m.node.name);
    MembersSnoc(env.C(), env.ref.namespace, cl, m.pod.(nodeName := m.node.name), v);
  }

  /** How many pods value v still misses. */
  function Short(env: Env, cl: ClusterState, v: string): nat
    requires env.Usable()
  {
    if Desired(env.C(), v) > Cnt(env, cl, v) then Desired(env.C(), v) - Cnt(env, cl, v) else 0
  }

  function Shortages(env: Env, cl: ClusterState, values: set<string>): map<string, nat>
    requires env.Usable()
  {
    map v | v in env.Policy() && v in values :: Short(env, cl, v)
  }

  /** The placements missing on some of the policy's values, and on all of them. */
  ghost function DeficitOn(env: Env, cl: ClusterState, values: set<string>): nat
    requires env.Usable()
  {
    Total(Shortages(env, cl, values))
  }

  ghost function Deficit(env: Env, cl: ClusterState): nat
    requires env.Usable()
  {
    DeficitOn(env, cl, env.Policy().Keys)
  }

  lemma DeficitZero(env: Env, cl: ClusterState)
    requires env.Usable()
    ensures Deficit(env, cl) == 0 <==> Reached(env, cl)
  {
    var m := Shortages(env, cl, env.Policy().Keys);
    TotalZero(m);
    assert forall v | v in env.Policy() :: v in m && (m[v] == 0 <==> Cnt(env, cl, v) >= env.Policy()[v]);
    if forall k | k in m :: m[k] == 0 {
      forall v | v in env.Policy() ensures Cnt(env, cl, v) >= env.Policy()[v] {
        assert m[v] == 0;
      }
    }
  }

  /** One more pod on value v, and none elsewhere. */
  ghost predicate OneMore(env: Env, cl: ClusterState, cl': ClusterState, v: string)
    requires env.Usable()
  {
    forall w :: Cnt(env, cl', w) == Cnt(env, cl, w) + if w == v then 1 else 0
  }

  predicate IsShort(env: Env, cl: ClusterState, v: string)
    requires env.Usable()
  {
    v in env.Policy() && Cnt(env, cl, v) < env.Policy()[v]
  }

  lemma DeficitStep(env: Env, cl: ClusterState, cl': ClusterState, v: string, values: set<string>)
    requires env.Usable() && OneMore(env, cl, cl', v)
    ensures DeficitOn(env, cl', values)
         == DeficitOn(env, cl, values) - if v in values && IsShort(env, cl, v) then 1 else 0
  {
    var before, after := Shortages(env, cl, values), Shortages(env, cl', values);
    forall w
      ensures v in env.Policy() ==>
        Short(env, cl', w) == Short(env, cl, w) - if w == v && IsShort(env, cl, v) then 1 else 0
    {
      ShortStep(env, cl, cl', v, w);
    }
    if v in before {
      assert after == before[v := after[v]];
      TotalUpdate(before, v, after[v]);
    } else {
      assert after == before;
    }
  }

  lemma ShortStep(env: Env, cl: ClusterState, cl': ClusterState, v: string, w: string)
    requires env.Usable() && OneMore(env, cl, cl', v)
    ensures v in env.Policy() ==>
      Short(env, cl', w) == Short(env, cl, w) - if w == v && IsShort(env, cl, v) then 1 else 0
  {
  }

  /** A pod placed on a node takes one from the deficit if it is selected and the node's value is short. */
  lemma DeficitPlaced(env: Env, cl: ClusterState, m: Move, values: set<string>)
    requires env.Usable() && DistinctNodes(cl.nodes) && m.node in cl.nodes && !m.pod.terminating
    ensures var v := DomainOf(m.node, env.Key());
            var fills := Selected(env.C(), env.ref.namespace, m.pod) && v in values && IsShort(env, cl, v);
            DeficitOn(env, Place(cl, m), values) == DeficitOn(env, cl, values) - if fills then 1 else 0
  {
    forall w {
      PlaceCounts(env, cl, m, w);
    }
    if Selected(env.C(), env.ref.namespace, m.pod) {
      DeficitStep(env, cl, Place(cl, m), DomainOf(m.node, env.Key()), values);
    } else {
      assert Shortages(env, Place(cl, m), values) == Shortages(env, cl, values);
    }
  }

  /** The policy's own pods are selected and go to labelled nodes. */
  lemma GovernedIsCounted(env: Env, cl: ClusterState, m: Move)
    requires Sound(env, cl) && Admitted(env, cl, m) && Governed(env, m.pod)
    ensures CycleOf(env, cl, m.pod, m.affinity) == Some(ViewOf(env, cl, m.affinity))
    ensures env.Key() in m.node.labels && Selected(env.C(), env.ref.namespace, m.pod)
  {
    FilterMeans(env, cl, m);
  }

  /** What a move changes: a selected pod adds one to the value of its node, any other pod adds nothing. */
  lemma MoveCounts(env: Env, cl: ClusterState, m: Move)
    requires Sound(env, cl) && Admitted(env, cl, m)
    ensures Governed(env, m.pod) ==> Selected(env.C(), env.ref.namespace, m.pod) && env.Key() in m.node.labels
    ensures Selected(env.C(), env.ref.namespace, m.pod) ==> OneMore(env, cl, Place(cl, m), DomainOf(m.node, env.Key()))
    ensures !Selected(env.C(), env.ref.namespace, m.pod) ==> forall w :: Cnt(env, Place(cl, m), w) == Cnt(env, cl, w)
  {
    if Governed(env, m.pod) {
      GovernedIsCounted(env, cl, m);
    }
    forall w {
      PlaceCounts(env, cl, m, w);
    }
  }

  /** While the policy is unreached, an admitted pod goes to a value of the policy that is short. */
  lemma AdmittedWhereShort(env: Env, cl: ClusterState, m: Move)
    requires Sound(env, cl) && Admitted(env, cl, m) && Governed(env, m.pod) && !Reached(env, cl)
    ensures env.Key() in m.node.labels
    ensures var v := m.node.labels[env.Key()]; v in env.Policy() && Cnt(env, cl, v) < env.Policy()[v]
  {
    GovernedIsCounted(env, cl, m);
    FilterMeans(env, cl, m);
  }

  function PlaceAll(cl: ClusterState, ms: seq<Move>): (r: ClusterState)
    ensures r.nodes == cl.nodes && |r.pods| == |cl.pods| + |ms|
  {
    if ms == [] then cl else Place(PlaceAll(cl, ms[..|ms| - 1]), ms[|ms| - 1])
  }

  /** Scheduling cycles one after the other, each with its own PreFilter on the snapshot of its time. */
  predicate AdmittedRun(env: Env, cl: ClusterState, ms: seq<Move>)
    requires env.Usable()
  {
    ms != [] ==>
      AdmittedRun(env, cl, ms[..|ms| - 1]) && Admitted(env, PlaceAll(cl, ms[..|ms| - 1]), ms[|ms| - 1])
  }

  function GovernedMoves(env: Env, ms: seq<Move>): nat {
    if ms == [] then 0
    else GovernedMoves(env, ms[..|ms| - 1]) + if Governed(env, ms[|ms| - 1].pod) then 1 else 0
  }

  function StrayMoves(env: Env, ms: seq<Move>): nat
    requires env.Usable()
  {
    if ms == [] then 0
    else StrayMoves(env, ms[..|ms| - 1]) + if Stray(env, ms[|ms| - 1].pod) then 1 else 0
  }

  /** A stray pod that happens to fill a gap of one of the values. */
  predicate Hit(env: Env, cl: ClusterState, m: Move, values: set<string>)
    requires env.Usable()
  {
    Stray(env, m.pod) && DomainOf(m.node, env.Key()) in values && IsShort(env, cl, DomainOf(m.node, env.Key()))
  }

  function StrayHits(env: Env, cl: ClusterState, ms: seq<Move>, values: set<string>): nat
    requires env.Usable()
  {
    if ms == [] then 0
    else
      StrayHits(env, cl, ms[..|ms| - 1], values)
      + if Hit(env, PlaceAll(cl, ms[..|ms| - 1]), ms[|ms| - 1], values) then 1 else 0
  }

  /** A stray pod that goes to value v although v is not short. */
  predicate Overshoot(env: Env, cl: ClusterState, m: Move, v: string)
    requires env.Usable()
  {
    Stray(env, m.pod) && DomainOf(m.node, env.Key()) == v && !IsShort(env, cl, v)
  }

  function Overshoots(env: Env, cl: ClusterState, ms: seq<Move>, v: string): nat
    requires env.Usable()
  {
    if ms == [] then 0
    else
      Overshoots(env, cl, ms[..|ms| - 1], v)
      + if Overshoot(env, PlaceAll(cl, ms[..|ms| - 1]), ms[|ms| - 1], v) then 1 else 0
  }

  lemma RunSound(env: Env, cl: ClusterState, ms: seq<Move>)
    requires Sound(env, cl) && AdmittedRun(env, cl, ms) && |cl.pods| + |ms| <= MAX_INT32
    ensures Sound(env, PlaceAll(cl, ms))
  {
  }

  /** The moves that use up the deficit. */
  function Filling(env: Env, cl: ClusterState, ms: seq<Move>): nat
    requires env.Usable()
  {
    GovernedMoves(env, ms) + StrayHits(env, cl, ms, env.Policy().Keys)
  }

  /**
   Exact filling: a run uses up the deficit one by one, by each admitted pod of the policy and by each
   stray pod that fills a gap, so exactly as many of them as the deficit reach the policy.
   */
  lemma {:induction false} ExactFilling(env: Env, cl: ClusterState, ms: seq<Move>)
    requires Sound(env, cl) && AdmittedRun(env, cl, ms) && |cl.pods| + |ms| <= MAX_INT32
    ensures var n := GovernedMoves(env, ms) + StrayHits(env, cl, ms, env.Policy().Keys);
            Deficit(env, PlaceAll(cl, ms)) == if n < Deficit(env, cl) then Deficit(env, cl) - n else 0
  {
    if ms != [] {
      ExactFilling(env, cl, ms[..|ms| - 1]);
      LastMoveFills(env, cl, ms);
    }
  }

  lemma LastMoveFills(env: Env, cl: ClusterState, ms: seq<Move>)
    requires Sound(env, cl) && AdmittedRun(env, cl, ms) && |cl.pods| + |ms| <= MAX_INT32 && ms != []
    ensures var k := Filling(env, cl, ms) - Filling(env, cl, ms[..|ms| - 1]);
            var left := Deficit(env, PlaceAll(cl, ms[..|ms| - 1]));
            0 <= k <= 1 && Deficit(env, PlaceAll(cl, ms)) == if k < left then left - k else 0
  {
    RunSound(env, cl, ms[..|ms| - 1]);
    DeficitMove(env, PlaceAll(cl, ms[..|ms| - 1]), ms[|ms| - 1]);
  }

  lemma DeficitMove(env: Env, cl: ClusterState, m: Move)
    requires Sound(env, cl) && Admitted(env, cl, m)
    ensures var k := if Governed(env, m.pod) || Hit(env, cl, m, env.Policy().Keys) then 1 else 0;
            Deficit(env, Place(cl, m)) == if k < Deficit(env, cl) then Deficit(env, cl) - k else 0
  {
    DeficitZero(env, cl);
    DeficitPlaced(env, cl, m, env.Policy().Keys);
    if Governed(env, m.pod) {
      GovernedIsCounted(env, cl, m);
      if !Reached(env, cl) {
        AdmittedWhereShort(env, cl, m);
      }
    }
  }

  function Max(a: int, b: int): int { if a > b then a else b }

  /**
   Until the deficit is used up, only stray pods take a value beyond its replicas, or a value outside the
   policy beyond what it had, and each of them by one.
   */
  lemma {:induction false} NoOverfilling(env: Env, cl: ClusterState, ms: seq<Move>, v: string)
    requires Sound(env, cl) && AdmittedRun(env, cl, ms) && |cl.pods| + |ms| <= MAX_INT32
    requires GovernedMoves(env, ms) + StrayHits(env, cl, ms, env.Policy().Keys) <= Deficit(env, cl)
    ensures Cnt(env, cl, v) <= Cnt(env, PlaceAll(cl, ms), v)
    ensures Cnt(env, PlaceAll(cl, ms), v) <= Max(Cnt(env, cl, v), Desired(env.C(), v)) + Overshoots(env, cl, ms, v)
  {
    if ms != [] {
      var prefix, m := ms[..|ms| - 1], ms[|ms| - 1];
      NoOverfilling(env, cl, prefix, v);
      RunSound(env, cl, prefix);
      ExactFilling(env, cl, prefix);
      FillingMove(env, PlaceAll(cl, prefix), m, v);
    }
  }

  lemma FillingMove(env: Env, cl: ClusterState, m: Move, v: string)
    requires Sound(env, cl) && Admitted(env, cl, m)
    requires Governed(env, m.pod) ==> Deficit(env, cl) > 0
    ensures var after := Cnt(env, Place(cl, m), v);
            && Cnt(env, cl, v) <= after <= Cnt(env, cl, v) + 1
            && (after == Cnt(env, cl, v) || after <= Desired(env.C(), v) || Overshoot(env, cl, m, v))
  {
    MoveCounts(env, cl, m);
    if Governed(env, m.pod) {
      DeficitZero(env, cl);
      AdmittedWhereShort(env, cl, m);
    }
  }

  /** A move that uses up the deficit of the values if it is governed or a hit, and else leaves it. */
  lemma MoveOnValues(env: Env, cl: ClusterState, m: Move, values: set<string>)
    requires Sound(env, cl) && Admitted(env, cl, m)
    requires Governed(env, m.pod) ==>
      DomainOf(m.node, env.Key()) in values && IsShort(env, cl, DomainOf(m.node, env.Key()))
    ensures DeficitOn(env, Place(cl, m), values)
         == DeficitOn(env, cl, values) - if Governed(env, m.pod) || Hit(env, cl, m, values) then 1 else 0
  {
    DeficitPlaced(env, cl, m, values);
    if Governed(env, m.pod) {
      GovernedIsCounted(env, cl, m);
    }
  }

  /**
   Bounded admission, where a value stays short: if no selected pod of the run is placed on the values in
   `out` and one of them is short, every admitted pod of the policy takes one from the deficit of the other
   values, so there are no more of them than were missing there.
   */
  lemma {:induction false} BoundedAdmission(env: Env, cl: ClusterState, ms: seq<Move>, out: set<string>, short: string)
    requires Sound(env, cl) && AdmittedRun(env, cl, ms) && |cl.pods| + |ms| <= MAX_INT32
    requires short in out && IsShort(env, cl, short)
    requires forall m | m in ms && Selected(env.C(), env.ref.namespace, m.pod) :: DomainOf(m.node, env.Key()) !in out
    ensures Cnt(env, PlaceAll(cl, ms), short) == Cnt(env, cl, short)
    ensures var values := env.Policy().Keys - out;
            GovernedMoves(env, ms) + StrayHits(env, cl, ms, values) + DeficitOn(env, PlaceAll(cl, ms), values)
            == DeficitOn(env, cl, values)
  {
    if ms != [] {
      var prefix, m := ms[..|ms| - 1], ms[|ms| - 1];
      var mid := PlaceAll(cl, prefix);
      assert forall x | x in prefix :: x in ms;
      assert m in ms;
      BoundedAdmission(env, cl, prefix, out, short);
      RunSound(env, cl, prefix);
      MoveCounts(env, mid, m);
      if Governed(env, m.pod) {
        assert !Reached(env, mid);
        AdmittedWhereShort(env, mid, m);
      }
      MoveOnValues(env, mid, m, env.Policy().Keys - out);
    }
  }

  /** The node affinity of no pod of the policy in the run keys any of these values. */
  ghost predicate NeverKeyed(env: Env, cl: ClusterState, ms: seq<Move>, out: set<string>)
    requires env.Usable()
  {
    forall m, w | m in ms && Governed(env, m.pod) && w in out :: !KeyedFor(env, cl, m.affinity, w)
  }

  /**
   Bounded admission, where a value has no counter: if some values of the policy are never keyed, short or
   not, the policy is never found reached, and a whole run admits no more pods of the policy than the
   initial deficit of the other values.
   */
  lemma {:induction false} NeverKeyedBoundsAdmission(env: Env, cl: ClusterState, ms: seq<Move>, out: set<string>)
    requires Sound(env, cl) && AdmittedRun(env, cl, ms) && |cl.pods| + |ms| <= MAX_INT32
    requires out != {} && out <= env.Policy().Keys && NeverKeyed(env, cl, ms, out)
    ensures var values := env.Policy().Keys - out;
            GovernedMoves(env, ms) + StrayHits(env, cl, ms, values) + DeficitOn(env, PlaceAll(cl, ms), values)
            == DeficitOn(env, cl, values)
  {
    if ms != [] {
      var prefix, m := ms[..|ms| - 1], ms[|ms| - 1];
      var mid := PlaceAll(cl, prefix);
      assert forall x | x in prefix :: x in ms;
      assert m in ms;
      NeverKeyedBoundsAdmission(env, cl, prefix, out);
      RunSound(env, cl, prefix);
      if Governed(env, m.pod) {
        UnkeyedMeansShort(env, cl, mid, m, out);
      }
      MoveOnValues(env, mid, m, env.Policy().Keys - out);
    }
  }

  lemma UnkeyedMeansShort(env: Env, cl: ClusterState, mid: ClusterState, m: Move, out: set<string>)
    requires Sound(env, mid) && Admitted(env, mid, m) && Governed(env, m.pod) && cl.nodes == mid.nodes
    requires out != {} && out <= env.Policy().Keys && forall w | w in out :: !KeyedFor(env, cl, m.affinity, w)
    ensures var v := DomainOf(m.node, env.Key()); v in env.Policy().Keys - out && IsShort(env, mid, v)
  {
    GovernedIsCounted(env, mid, m);
    KeysStay(env, cl, mid, m.affinity);
    FilterMeans(env, mid, m);
    OwnValueKeyed(env, mid, m.affinity, m.node);
    var w :| w in out;
    assert w in env.Policy() && !KeyedFor(env, mid, m.affinity, w);
  }

  /** Some node passes the pod's affinity and this plugin's Filter. */
  ghost predicate Schedulable(env: Env, cl: ClusterState, pod: Pod, affinity: Node -> bool)
    requires env.Usable()
  {
    exists node :: node in cl.nodes && affinity(node)
      && Filter(env.policies, Some(ViewOf(env, cl, affinity)), pod, Some(node)) == Success
  }

  /**
   Progress: while the policy is unreached, a selected pod of the policy can be placed if and only if
   some value that is still short is carried by a node that passes the pod's affinity.
   */
  lemma {:induction false} SchedulableIff(env: Env, cl: ClusterState, pod: Pod, affinity: Node -> bool)
    requires Sound(env, cl) && Governed(env, pod) && Selected(env.C(), env.ref.namespace, pod) && !Reached(env, cl)
    ensures Schedulable(env, cl, pod, affinity)
       <==> exists v :: v in env.Policy() && Cnt(env, cl, v) < env.Policy()[v] && KeyedFor(env, cl, affinity, v)
  {
    if Schedulable(env, cl, pod, affinity) {
      var node :| node in cl.nodes && affinity(node)
        && Filter(env.policies, Some(ViewOf(env, cl, affinity)), pod, Some(node)) == Success;
      FilterMeans(env, cl, Move(pod, affinity, node));
      OwnValueKeyed(env, cl, affinity, node);
    }
    if v :| v in env.Policy() && Cnt(env, cl, v) < env.Policy()[v] && KeyedFor(env, cl, affinity, v) {
      var node := KeyingNode(env, cl, affinity, v);
      FilterMeans(env, cl, Move(pod, affinity, node));
    }
  }

  /** Once the policy is reached, a pod can be placed if and only if its affinity keys all values, and any at all. */
  lemma ReachedSchedulableIff(env: Env, cl: ClusterState, pod: Pod, affinity: Node -> bool)
    requires Sound(env, cl) && Governed(env, pod) && Selected(env.C(), env.ref.namespace, pod) && Reached(env, cl)
    ensures Schedulable(env, cl, pod, affinity)
       <==> && (forall w | w in env.Policy() :: KeyedFor(env, cl, affinity, w))
            && exists v :: KeyedFor(env, cl, affinity, v)
  {
    if Schedulable(env, cl, pod, affinity) {
      var node :| node in cl.nodes && affinity(node)
        && Filter(env.policies, Some(ViewOf(env, cl, affinity)), pod, Some(node)) == Success;
      FilterMeans(env, cl, Move(pod, affinity, node));
      OwnValueKeyed(env, cl, affinity, node);
    }
    if (forall w | w in env.Policy() :: KeyedFor(env, cl, affinity, w)) && exists v :: KeyedFor(env, cl, affinity, v) {
      var v :| KeyedFor(env, cl, affinity, v);
      var node := KeyingNode(env, cl, affinity, v);
      FilterMeans(env, cl, Move(pod, affinity, node));
    }
  }

  lemma KeyingNode(env: Env, cl: ClusterState, affinity: Node -> bool, v: string) returns (node: Node)
    requires env.Usable() && KeyedFor(env, cl, affinity, v)
    ensures node in cl.nodes && affinity(node) && env.Key() in node.labels && node.labels[env.Key()] == v
  {
    var i :| 0 <= i < |SnapshotOf(cl)| && Keys(SnapshotOf(cl)[i], affinity, env.Key())
          && TopologyPair(env.Key(), DomainOf(SnapshotOf(cl)[i].node.value, env.Key())) == TopologyPair(env.Key(), v);
    node := cl.nodes[i];
  }

  /** A pod waiting for its cycle, with the outcome of its node affinity. */
  datatype Arrival = Arrival(pod: Pod, affinity: Node -> bool)

  /** The pod is of the policy, and every value of the policy has a node for it. */
  ghost predicate CanFill(env: Env, cl: ClusterState, a: Arrival)
    requires env.Usable()
  {
    && Governed(env, a.pod) && Selected(env.C(), env.ref.namespace, a.pod) && !a.pod.terminating
    && forall v | v in env.Policy() :: KeyedFor(env, cl, a.affinity, v)
  }

  function PodsArriving(arrivals: seq<Arrival>): seq<Pod> {
    seq(|arrivals|, i requires 0 <= i < |arrivals| => arrivals[i].pod)
  }

  ghost predicate Serves(arrivals: seq<Arrival>, ms: seq<Move>) {
    && |ms| == |arrivals|
    && forall i | 0 <= i < |ms| :: ms[i].pod == arrivals[i].pod && ms[i].affinity == arrivals[i].affinity
  }

  lemma KeysStay(env: Env, cl: ClusterState, cl': ClusterState, affinity: Node -> bool)
    requires env.Usable() && cl.nodes == cl'.nodes
    ensures KeyedPairs(SnapshotOf(cl), affinity, env.Key()) == KeyedPairs(SnapshotOf(cl'), affinity, env.Key())
  {
    assert forall i | 0 <= i < |cl.nodes| :: SnapshotOf(cl)[i].node == SnapshotOf(cl')[i].node;
    assert forall i | 0 <= i < |cl.nodes| ::
      Keys(SnapshotOf(cl)[i], affinity, env.Key()) == Keys(SnapshotOf(cl')[i], affinity, env.Key());
  }

  lemma {:induction false} PlacedPods(cl: ClusterState, ms: seq<Move>)
    ensures forall i | 0 <= i < |cl.pods| :: PlaceAll(cl, ms).pods[i] == cl.pods[i]
    ensures forall i | 0 <= i < |ms| :: PlaceAll(cl, ms).pods[|cl.pods| + i] == ms[i].pod.(nodeName := ms[i].node.name)
  {
    if ms != [] {
      PlacedPods(cl, ms[..|ms| - 1]);
    }
  }

  /** The arrivals fit, have names of their own, and do not outnumber the pods that are missing. */
  ghost predicate CanArrive(env: Env, cl: ClusterState, arrivals: seq<Arrival>) {
    && Sound(env, cl) && |cl.pods| + |arrivals| <= MAX_INT32 && |arrivals| <= Deficit(env, cl)
    && (forall a | a in arrivals :: CanFill(env, cl, a))
    && DistinctPods(cl.pods + PodsArriving(arrivals))
  }

  lemma CanArrivePrefix(env: Env, cl: ClusterState, prefix: seq<Arrival>, a: Arrival)
    requires CanArrive(env, cl, prefix + [a])
    ensures CanArrive(env, cl, prefix)
  {
    assert cl.pods + PodsArriving(prefix) == (cl.pods + PodsArriving(prefix + [a]))[..|cl.pods| + |prefix|];
  }

  /** As long as the policy misses pods, pods that can go anywhere are admitted one after the other. */
  lemma {:induction false} ArrivalsNeverStall(env: Env, cl: ClusterState, arrivals: seq<Arrival>)
    returns (ms: seq<Move>)
    requires CanArrive(env, cl, arrivals)
    ensures Serves(arrivals, ms) && AdmittedRun(env, cl, ms) && GovernedMoves(env, ms) == |ms|
    decreases |arrivals|, 0
  {
    if arrivals == [] {
      ms := [];
    } else {
      var prefix, a := arrivals[..|arrivals| - 1], arrivals[|arrivals| - 1];
      assert prefix + [a] == arrivals;
      ms := LastArrival(env, cl, prefix, a);
    }
  }

  lemma {:induction false} LastArrival(env: Env, cl: ClusterState, prefix: seq<Arrival>, a: Arrival)
    returns (ms: seq<Move>)
    requires CanArrive(env, cl, prefix + [a])
    ensures Serves(prefix + [a], ms) && AdmittedRun(env, cl, ms) && GovernedMoves(env, ms) == |ms|
    decreases |prefix|, 1
  {
    CanArrivePrefix(env, cl, prefix, a);
    var done := ArrivalsNeverStall(env, cl, prefix);
    var m := AdmitNext(env, cl, prefix, a, done);
    ms := done + [m];
    ExtendedRun(env, cl, done, m);
    ServesSnoc(prefix, a, done, m);
  }

  lemma {:induction false} AdmitNext(env: Env, cl: ClusterState, prefix: seq<Arrival>, a: Arrival, done: seq<Move>)
    returns (m: Move)
    requires CanArrive(env, cl, prefix + [a])
    requires Serves(prefix, done) && AdmittedRun(env, cl, done) && GovernedMoves(env, done) == |done|
    ensures m.pod == a.pod && m.affinity == a.affinity
    ensures Governed(env, m.pod) && Admitted(env, PlaceAll(cl, done), m)
  {
    assert a in prefix + [a];
    m := NextMove(env, cl, done, a);
    NewcomerIsDistinct(cl, prefix, a, done, m);
  }

  lemma ServesSnoc(arrivals: seq<Arrival>, a: Arrival, ms: seq<Move>, m: Move)
    requires Serves(arrivals, ms) && m.pod == a.pod && m.affinity == a.affinity
    ensures Serves(arrivals + [a], ms + [m])
  {
  }

  lemma ExtendedRun(env: Env, cl: ClusterState, done: seq<Move>, m: Move)
    requires env.Usable() && AdmittedRun(env, cl, done) && Admitted(env, PlaceAll(cl, done), m)
    ensures AdmittedRun(env, cl, done + [m])
    ensures GovernedMoves(env, done + [m]) == GovernedMoves(env, done) + if Governed(env, m.pod) then 1 else 0
  {
    assert (done + [m])[..|done|] == done;
  }

  lemma {:induction false} AllGoverned(env: Env, cl: ClusterState, ms: seq<Move>)
    requires env.Usable()
    ensures GovernedMoves(env, ms) <= |ms|
    ensures GovernedMoves(env, ms) == |ms| ==>
      StrayMoves(env, ms) == 0 && StrayHits(env, cl, ms, env.Policy().Keys) == 0
  {
    if ms != [] {
      AllGoverned(env, cl, ms[..|ms| - 1]);
    }
  }

  lemma GapLeft(env: Env, cl: ClusterState, done: seq<Move>) returns (v: string)
    requires Sound(env, cl) && AdmittedRun(env, cl, done) && |cl.pods| + |done| <= MAX_INT32
    requires GovernedMoves(env, done) == |done| < Deficit(env, cl)
    ensures IsShort(env, PlaceAll(cl, done), v) && !Reached(env, PlaceAll(cl, done))
  {
    AllGoverned(env, cl, done);
    ExactFilling(env, cl, done);
    DeficitZero(env, PlaceAll(cl, done));
    v :| v in env.Policy() && Cnt(env, PlaceAll(cl, done), v) < env.Policy()[v];
  }

  lemma {:induction false} NextMove(env: Env, cl: ClusterState, done: seq<Move>, a: Arrival) returns (m: Move)
    requires Sound(env, cl) && AdmittedRun(env, cl, done) && |cl.pods| + |done| <= MAX_INT32
    requires CanFill(env, cl, a) && GovernedMoves(env, done) == |done| < Deficit(env, cl)
    ensures m.pod == a.pod && m.affinity == a.affinity && m.node in cl.nodes && m.affinity(m.node)
    ensures var view := ViewOf(env, PlaceAll(cl, done), m.affinity);
            Filter(env.policies, Some(view), m.pod, Some(m.node)) == Success
  {
    var mid := PlaceAll(cl, done);
    var v := GapLeft(env, cl, done);
    RunSound(env, cl, done);
    KeysStay(env, cl, mid, a.affinity);
    assert KeyedFor(env, mid, a.affinity, v);
    SchedulableIff(env, mid, a.pod, a.affinity);
    var node :| node in mid.nodes && a.affinity(node)
      && Filter(env.policies, Some(ViewOf(env, mid, a.affinity)), a.pod, Some(node)) == Success;
    m := Move(a.pod, a.affinity, node);
  }

  lemma NewcomerIsDistinct(cl: ClusterState, prefix: seq<Arrival>, a: Arrival, done: seq<Move>, m: Move)
    requires DistinctPods(cl.pods + PodsArriving(prefix + [a])) && Serves(prefix, done) && m.pod == a.pod
    ensures DistinctPods(Place(PlaceAll(cl, done), m).pods)
  {
    PlacedPods(cl, done);
    var named, placed := cl.pods + PodsArriving(prefix + [a]), Place(PlaceAll(cl, done), m).pods;
    assert |named| == |placed|;
    forall i | 0 <= i < |named| ensures named[i].name == placed[i].name && named[i].namespace == placed[i].namespace {
      if |cl.pods| <= i < |cl.pods| + |done| {
        assert placed[i] == PlaceAll(cl, done).pods[|cl.pods| + (i - |cl.pods|)];
      }
    }
  }

  predicate UncheckedOrShort(env: Env, cl: ClusterState, affinity: Node -> bool, v: string)
    requires env.Usable()
  {
    v in env.Policy() && (Cnt(env, cl, v) < env.Policy()[v] || !KeyedFor(env, cl, affinity, v))
  }

  /**
   Filter on any labelled node, also one that fails the pod's affinity: a value of the policy that has no
   counter is let through however full it is, and reserving such a node afterwards faults.
   */
  lemma FilterOnAnyNode(env: Env, cl: ClusterState, affinity: Node -> bool, pod: Pod, node: Node)
    requires Sound(env, cl) && Governed(env, pod) && Selected(env.C(), env.ref.namespace, pod)
    requires env.Key() in node.labels
    ensures Filter(env.policies, Some(ViewOf(env, cl, affinity)), pod, Some(node)) == Success
       <==> || (Reached(env, cl) && forall w | w in env.Policy() :: KeyedFor(env, cl, affinity, w))
            || UncheckedOrShort(env, cl, affinity, node.labels[env.Key()])
    ensures Faults(env.C(), env.ref.namespace, ViewOf(env, cl, affinity).counts.Keys, pod, Some(node))
       <==> !KeyedFor(env, cl, affinity, node.labels[env.Key()])
  {
    PolicyReachedMeans(env, cl, affinity);
    ViewCounts(env, cl, affinity, node.labels[env.Key()]);
  }

  lemma OwnCycle(env: Env, cl: ClusterState, pod: Pod, affinity: Node -> bool)
    requires env.Usable() && Governed(env, pod)
    ensures CycleOf(env, cl, pod, affinity) == Some(ViewOf(env, cl, affinity))
  {
  }

  /**
   The refusals, for a pod of the policy and any node: a pod that the policy does not select is
   Unschedulable anywhere. One that it selects is UnschedulableAndUnresolvable exactly on a node without the
   policy's key, and Unschedulable exactly on one with it, if the policy is not found reached and the node's
   value is none of the policy's, or is counted and has its replicas.
   */
  lemma FilterRefusals(env: Env, cl: ClusterState, pod: Pod, affinity: Node -> bool, node: Node)
    requires Sound(env, cl) && Governed(env, pod)
    ensures var status := Filter(env.policies, CycleOf(env, cl, pod, affinity), pod, Some(node));
            var spec := env.policies[env.ref];
            if !spec.selector.value(pod.labels) then status == Unschedulable
            else
              && (status == UnschedulableAndUnresolvable <==> spec.topologyKey !in node.labels)
              && (status == Unschedulable <==>
                    && spec.topologyKey in node.labels
                    && !(Reached(env, cl) && forall w | w in env.Policy() :: KeyedFor(env, cl, affinity, w))
                    && var v := node.labels[spec.topologyKey];
                       v in env.Policy() ==> KeyedFor(env, cl, affinity, v) && Cnt(env, cl, v) >= env.Policy()[v])
  {
    OwnCycle(env, cl, pod, affinity);
    if Selected(env.C(), env.ref.namespace, pod) {
      PolicyReachedMeans(env, cl, affinity);
      if env.Key() in node.labels {
        ViewCounts(env, cl, affinity, node.labels[env.Key()]);
      }
    }
  }

  /** A node that passes the pod's affinity has a counter, so reserving it after Filter does not fault. */
  lemma ReserveAfterFilterIsSafe(env: Env, cl: ClusterState, m: Move)
    requires Sound(env, cl) && Governed(env, m.pod) && Admitted(env, cl, m)
    ensures !Faults(env.C(), env.ref.namespace, ViewOf(env, cl, m.affinity).counts.Keys, m.pod, Some(m.node))
  {
    GovernedIsCounted(env, cl, m);
    OwnValueKeyed(env, cl, m.affinity, m.node);
  }
}
