/** One call of the strategy on all policies, each on the cluster as it is when the policy's pods are listed. */
module Strategy {
  import opened Cluster
  import opened Seqs
  import opened EvictionOrder
  import opened Descheduler
  import opened Snapshots
  import opened Admission
  import opened Convergence

  /** The i-th policy is this one, and its pods have been listed in this cluster. */
  ghost predicate ListedAs(env: Env, cl: ClusterState, w: Listed) {
    && env.Usable() && w.ref == env.ref && w.tsp == env.policies[env.ref]
    && w.pods == Some(Listing(env.C(), env.ref.namespace, cl.pods))
  }

  /**
   Every listed policy whose selector parses and whose pods could be listed has its own pass, on its own
   position in the list and its own cluster, unless it is the one that panics.
   */
  lemma EveryPolicyHasItsPass(env: Env, cl: ClusterState, tsps: seq<Listed>, passes: seq<seq<Attempt>>, crashed: bool,
                              i: nat)
    requires Handled(NodeMapOf(cl.nodes), tsps, passes, crashed)
    requires i < |passes| <= |tsps| && !(crashed && i == |passes| - 1) && ListedAs(env, cl, tsps[i])
    ensures PassOn(env, cl, passes[i])
  {
    assert PolicyOutcome(tsps[i], NodeMapOf(cl.nodes), passes[i], false);
  }

  /** A policy that cannot be used is skipped: nothing is attempted for it, and it does not panic. */
  lemma UnusablePolicyIsSkipped(nodeMap: map<string, Node>, tsps: seq<Listed>, passes: seq<seq<Attempt>>, crashed: bool,
                                i: nat)
    requires Handled(nodeMap, tsps, passes, crashed) && i < |passes| <= |tsps|
    requires tsps[i].tsp.selector.None? || tsps[i].pods.None?
    ensures passes[i] == [] && !(crashed && i == |passes| - 1)
  {
    assert PolicyOutcome(tsps[i], nodeMap, passes[i], crashed && i == |passes| - 1);
  }

  lemma {:induction false} FlattenHas(passes: seq<seq<Attempt>>, i: nat, a: Attempt)
    requires i < |passes| && a in passes[i]
    ensures a in Flatten(passes)
  {
    var last := |passes| - 1;
    if i < last {
      FlattenHas(passes[..last], i, a);
    }
  }

  /**
   The strategy acts: after a call that has not panicked there is one pass for each listed policy, and if
   some policy has a value with pods that is short and another value with too many, something is attempted.
   */
  lemma StrategyActs(env: Env, cl: ClusterState, tsps: seq<Listed>, passes: seq<seq<Attempt>>, i: nat, v: string)
    requires Handled(NodeMapOf(cl.nodes), tsps, passes, false) && |passes| == |tsps|
    requires i < |tsps| && ListedAs(env, cl, tsps[i]) && Proper(env, cl)
    requires ObservedShort(env, cl) && Cnt(env, cl, v) > Desired(env.C(), v)
    ensures Flatten(passes) != []
    ensures exists a :: a in Flatten(passes) && a.pod in Members(env.C(), env.ref.namespace, cl, v)
  {
    EveryPolicyHasItsPass(env, cl, tsps, passes, false, i);
    var log, tried := passes[i], Attempted(env, cl, passes[i], v);
    DesiredIsNatural(env, cl, v);
    AttemptedSize(env, cl, log, v);
    AttemptsAreMembers(env, cl, log, v);
    AttemptedAre(env, cl, log, v, tried[0]);
    var j :| 0 <= j < |log| && log[j].pod == tried[0];
    FlattenHas(passes, i, log[j]);
  }

  /** Every attempt is on a live selected pod of the cluster, and goes to the node the pod runs on. */
  lemma AttemptsAreOnTheirNodes(env: Env, cl: ClusterState, log: seq<Attempt>, a: Attempt)
    requires Proper(env, cl) && PassOn(env, cl, log) && a in log
    ensures a.pod in cl.pods && !a.pod.terminating && Selected(env.C(), env.ref.namespace, a.pod)
    ensures a.node in cl.nodes && a.node.name == a.pod.nodeName
  {
    var i :| 0 <= i < |log| && log[i] == a;
    var v := DomainOf(NodeMapOf(cl.nodes)[a.pod.nodeName], env.Key());
    AttemptedAre(env, cl, log, v, a.pod);
    AttemptsAreMembers(env, cl, log, v);
    MembersAre(env.C(), env.ref.namespace, cl, v, a.pod);
    NodeOf(cl, a.pod.nodeName);
  }

  lemma WholeGroup(group: seq<Pod>, ev: seq<Pod>)
    requires group != [] && FirstOf(group, |group|, ev)
    ensures multiset(ev) == multiset(group) && Sorted(ev)
  {
    var s: seq<Pod> :| multiset(s) == multiset(group) && Sorted(s) && |group| <= |s| && ev == s[..|group|];
    assert |s| == |multiset(s)| == |group|;
    assert ev == s;
  }

  lemma CutBlock(env: Env, cl: ClusterState, todo: set<TopologyPair>, done: seq<Attempt>, block: seq<Attempt>,
                 w: string, v: string)
    requires env.Usable()
    requires CutAt(env.C(), NodeMapOf(cl.nodes), Listing(env.C(), env.ref.namespace, cl.pods), todo, done, block, w)
    ensures Attempted(env, cl, done + block, v) == Attempted(env, cl, done, v) + if v == w then PodsOf(block) else []
  {
    var group := Members(env.C(), env.ref.namespace, cl, w);
    forall p | p in PodsOf(block) ensures PodDomain(env.Key(), NodeMapOf(cl.nodes), p) == Some(w) {
      FirstOfMember(group, |group|, PodsOf(block), p);
      MembersAre(env.C(), env.ref.namespace, cl, w, p);
    }
    BlockOn(env.Key(), NodeMapOf(cl.nodes), done, block, w, v);
  }

  lemma CutOthers(env: Env, cl: ClusterState, todo: set<TopologyPair>, done: seq<Attempt>, block: seq<Attempt>,
                  w: string, v: string)
    requires env.Usable() && v != w
    requires CutAt(env.C(), NodeMapOf(cl.nodes), Listing(env.C(), env.ref.namespace, cl.pods), todo, done, block, w)
    ensures
      || Attempted(env, cl, done + block, v) == []
      || FirstOf(Members(env.C(), env.ref.namespace, cl, v), SurplusOn(env, cl, v), Attempted(env, cl, done + block, v))
  {
    CutBlock(env, cl, todo, done, block, w, v);
  }

  lemma CutWhole(env: Env, cl: ClusterState, todo: set<TopologyPair>, done: seq<Attempt>, block: seq<Attempt>,
                 w: string)
    requires Sound(env, cl)
    requires CutAt(env.C(), NodeMapOf(cl.nodes), Listing(env.C(), env.ref.namespace, cl.pods), todo, done, block, w)
    ensures Desired(env.C(), w) < 0 < Cnt(env, cl, w) && Sorted(Attempted(env, cl, done + block, w))
    ensures multiset(Attempted(env, cl, done + block, w)) == multiset(Members(env.C(), env.ref.namespace, cl, w))
  {
    CntFits(env, cl, w);
    ToDeleteMeaning(env.C(), w, Cnt(env, cl, w));
    CutBlock(env, cl, todo, done, block, w, w);
    WholeGroup(Members(env.C(), env.ref.namespace, cl, w), PodsOf(block));
  }

  /**
   What a panic leaves: some value with negative replicas has had all of its pods attempted, in eviction
   order, and every other value either nothing or exactly the surplus of an undisturbed pass.
   */
  lemma PanicLeaves(env: Env, cl: ClusterState, log: seq<Attempt>) returns (w: string)
    requires Sound(env, cl)
    requires Outcome(env.C(), NodeMapOf(cl.nodes), Listing(env.C(), env.ref.namespace, cl.pods), log, true)
    ensures Desired(env.C(), w) < 0 < Cnt(env, cl, w) && Sorted(Attempted(env, cl, log, w))
    ensures multiset(Attempted(env, cl, log, w)) == multiset(Members(env.C(), env.ref.namespace, cl, w))
    ensures forall v | v != w ::
      || Attempted(env, cl, log, v) == []
      || FirstOf(Members(env.C(), env.ref.namespace, cl, v), SurplusOn(env, cl, v), Attempted(env, cl, log, v))
  {
    var c, nodeMap, pods := env.C(), NodeMapOf(cl.nodes), Listing(env.C(), env.ref.namespace, cl.pods);
    var todo, done, block, u :| log == done + block && CutAt(c, nodeMap, pods, todo, done, block, u);
    w := u;
    CutWhole(env, cl, todo, done, block, w);
    forall v | v != w
      ensures
        || Attempted(env, cl, log, v) == []
        || FirstOf(Members(c, env.ref.namespace, cl, v), SurplusOn(env, cl, v), Attempted(env, cl, log, v))
    {
      CutOthers(env, cl, todo, done, block, w, v);
    }
  }
}
