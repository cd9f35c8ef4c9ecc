/** The descheduler strategy: group the live pods by topology value, decide, evict what is too much. */
module Descheduler {
  import opened Cluster
  import opened Seqs
  import opened PolicyMap
  import opened EvictionOrder

  /** nodeMap: the last node listed under a name wins. */
  function NodeMapOf(nodes: seq<Node>): map<string, Node> {
    if nodes == [] then map[]
    else NodeMapOf(nodes[..|nodes| - 1])[nodes[|nodes| - 1].name := nodes[|nodes| - 1]]
  }

  /** The map holds under a name exactly the last node listed under it. */
  lemma {:induction false} LastNodeWins(nodes: seq<Node>, node: Node)
    ensures node.name in NodeMapOf(nodes) && NodeMapOf(nodes)[node.name] == node
       <==> exists i :: 0 <= i < |nodes| && nodes[i] == node && LastUnderName(nodes, i)
  {
    if nodes != [] {
      var last := |nodes| - 1;
      var prefix := nodes[..last];
      LastNodeWins(prefix, node);
      assert LastUnderName(nodes, last);
      if nodes[last].name == node.name {
        assert forall i | 0 <= i < last && LastUnderName(nodes, i) :: nodes[last].name != nodes[i].name;
      } else {
        assert forall i | 0 <= i < last :: prefix[i] == nodes[i];
        assert forall i | 0 <= i < last && nodes[i] == node :: LastUnderName(prefix, i) <==> LastUnderName(nodes, i);
      }
    }
  }

  predicate LastUnderName(nodes: seq<Node>, i: nat)
    requires i < |nodes|
  {
    forall j | i < j < |nodes| :: nodes[j].name != nodes[i].name
  }

  /** The topology value a pod is accounted to; none when its node is not known. */
  function PodDomain(key: string, nodeMap: map<string, Node>, p: Pod): Option<string> {
    if p.nodeName in nodeMap then Some(DomainOf(nodeMap[p.nodeName], key)) else None
  }

  function OnDomain(key: string, nodeMap: map<string, Node>, v: string): Pod -> bool {
    (p: Pod) => PodDomain(key, nodeMap, p) == Some(v)
  }

  function LiveOn(key: string, nodeMap: map<string, Node>, v: string): Pod -> bool {
    (p: Pod) => !p.terminating && PodDomain(key, nodeMap, p) == Some(v)
  }

  /** The live pods of one topology value among the listed ones. */
  function Group(key: string, nodeMap: map<string, Node>, pods: seq<Pod>, v: string): seq<Pod> {
    Where(LiveOn(key, nodeMap, v), pods)
  }

  /** The int32 difference between what a value should have and what it has. */
  function Diff(c: Constraint, v: string, count: int32): int32 {
    Wrap(Desired(c, v) - count)
  }

  /** How often the eviction loop body is entered for one value. */
  function ToDelete(c: Constraint, v: string, count: int32): nat {
    var diff := Diff(c, v, count);
    if diff < 0 && Wrap(0 - diff) > 0 then Wrap(0 - diff) else 0
  }

  /** No value that has a pod is short of its replicas. */
  ghost predicate TopoReached(c: Constraint, nodeMap: map<string, Node>, pods: seq<Pod>) {
    forall v | Group(c.topologyKey, nodeMap, pods, v) != [] ::
      Diff(c, v, Wrap(|Group(c.topologyKey, nodeMap, pods, v)|)) <= 0
  }

  ghost function Surplus(c: Constraint, nodeMap: map<string, Node>, pods: seq<Pod>, v: string): nat {
    var group := Group(c.topologyKey, nodeMap, pods, v);
    if group == [] || TopoReached(c, nodeMap, pods) then 0 else ToDelete(c, v, Wrap(|group|))
  }

  datatype Attempt = Attempt(pod: Pod, node: Node, evicted: bool)

  function PodsOf(log: seq<Attempt>): seq<Pod> {
    seq(|log|, i requires 0 <= i < |log| => log[i].pod)
  }

  /** The pods of value v that were attempted, in order. */
  function AttemptedOn(key: string, nodeMap: map<string, Node>, log: seq<Attempt>, v: string): seq<Pod> {
    Where(OnDomain(key, nodeMap, v), PodsOf(log))
  }

  /** ev is what the loop takes: the first k of the group in eviction order. */
  ghost predicate FirstOf(group: seq<Pod>, k: nat, ev: seq<Pod>) {
    if k == 0 then ev == []
    else exists s: seq<Pod> :: multiset(s) == multiset(group) && Sorted(s) && k <= |s| && ev == s[..k]
  }

  ghost predicate Known(key: string, nodeMap: map<string, Node>, log: seq<Attempt>) {
    forall a | a in log :: a.pod.nodeName in nodeMap && a.node == nodeMap[a.pod.nodeName]
  }

  /** What one undisturbed pass over a policy's pods attempts. */
  ghost predicate Pass(c: Constraint, nodeMap: map<string, Node>, pods: seq<Pod>, log: seq<Attempt>) {
    && Known(c.topologyKey, nodeMap, log)
    && forall v :: FirstOf(Group(c.topologyKey, nodeMap, pods, v), Surplus(c, nodeMap, pods, v),
                           AttemptedOn(c.topologyKey, nodeMap, log, v))
  }

  /** The evictor decides on its own whether an eviction succeeds; the strategy ignores its answer. */
  class PodEvictor {
    var log: seq<Attempt>

    constructor ()
      ensures log == []
    {
      log := [];
    }

    method EvictPod(pod: Pod, node: Node) returns (ok: bool)
      modifies this
      ensures log == old(log) + [Attempt(pod, node, ok)]
    {
      ok := *;
      log := log + [Attempt(pod, node, ok)];
    }
  }

  type Groups = map<TopologyPair, TopoPairCount>

  /** What the groups hold: for each value its pods and their count. */
  type Tallies = map<TopologyPair, (seq<Pod>, int32)>

  ghost predicate Unshared(groups: Groups) {
    forall p, q | p in groups && q in groups && p != q :: groups[p] != groups[q]
  }

  ghost function Content(groups: Groups): Tallies
    reads groups.Values
  {
    map pair | pair in groups :: (groups[pair].pods, groups[pair].count)
  }

  /** Exactly the values with a live pod on a known node have a group, and it holds those pods. */
  ghost predicate Partition(key: string, nodeMap: map<string, Node>, pods: seq<Pod>, content: Tallies) {
    && (forall pair | pair in content :: pair.key == key)
    && (forall v :: TopologyPair(key, v) in content <==> Group(key, nodeMap, pods, v) != [])
    && (forall pair | pair in content ::
          content[pair] == (Group(key, nodeMap, pods, pair.value), Wrap(|Group(key, nodeMap, pods, pair.value)|)))
  }

  ghost predicate GroupsOf(key: string, nodeMap: map<string, Node>, pods: seq<Pod>, groups: Groups)
    reads groups.Values
  {
    Unshared(groups) && Partition(key, nodeMap, pods, Content(groups))
  }

  method GroupPods(key: string, nodeMap: map<string, Node>, pods: seq<Pod>) returns (groups: Groups)
    ensures GroupsOf(key, nodeMap, pods, groups)
    ensures forall pair | pair in groups :: fresh(groups[pair])
  {
    groups := map[];
    for i := 0 to |pods|
      invariant GroupsOf(key, nodeMap, pods[..i], groups)
      invariant forall pair | pair in groups :: fresh(groups[pair])
    {
      assert pods[..i + 1] == pods[..i] + [pods[i]];
      groups := GroupPod(key, nodeMap, pods[..i], pods[i], groups);
    }
    assert pods[..|pods|] == pods;
  }

  lemma GroupSnoc(key: string, nodeMap: map<string, Node>, done: seq<Pod>, pod: Pod, v: string)
    ensures Group(key, nodeMap, done + [pod], v)
         == if LiveOn(key, nodeMap, v)(pod) then Group(key, nodeMap, done, v) + [pod] else Group(key, nodeMap, done, v)
  {
    WhereSnoc(LiveOn(key, nodeMap, v), done, pod);
  }

  lemma PartitionSkip(key: string, nodeMap: map<string, Node>, done: seq<Pod>, pod: Pod, content: Tallies)
    requires Partition(key, nodeMap, done, content)
    requires pod.terminating || pod.nodeName !in nodeMap
    ensures Partition(key, nodeMap, done + [pod], content)
  {
    forall v ensures Group(key, nodeMap, done + [pod], v) == Group(key, nodeMap, done, v) {
      GroupSnoc(key, nodeMap, done, pod, v);
    }
  }

  function Grown(content: Tallies, pair: TopologyPair, pod: Pod): (seq<Pod>, int32) {
    if pair in content then (content[pair].0 + [pod], Add(content[pair].1, 1)) else ([pod], 1)
  }

  lemma GroupGrows(key: string, nodeMap: map<string, Node>, done: seq<Pod>, pod: Pod, v: string)
    requires !pod.terminating && pod.nodeName in nodeMap
    ensures Group(key, nodeMap, done + [pod], v)
         == if v == DomainOf(nodeMap[pod.nodeName], key) then Group(key, nodeMap, done, v) + [pod]
            else Group(key, nodeMap, done, v)
  {
    GroupSnoc(key, nodeMap, done, pod, v);
  }

  lemma GrownIsGroup(key: string, nodeMap: map<string, Node>, done: seq<Pod>, pod: Pod, content: Tallies,
                     pair: TopologyPair)
    requires Partition(key, nodeMap, done, content)
    requires !pod.terminating && pod.nodeName in nodeMap
    requires pair == TopologyPair(key, DomainOf(nodeMap[pod.nodeName], key))
    ensures var grown := Group(key, nodeMap, done + [pod], pair.value);
            Grown(content, pair, pod) == (grown, Wrap(|grown|)) && grown != []
  {
    GroupGrows(key, nodeMap, done, pod, pair.value);
    var size := |Group(key, nodeMap, done, pair.value)|;
    WrapAdd(size, 1, size + 1);
    assert Wrap(1) == 1 && TopologyPair(key, pair.value) == pair;
    if pair !in content {
      assert Group(key, nodeMap, done + [pod], pair.value) == [pod];
    }
  }

  lemma PartitionStep(key: string, nodeMap: map<string, Node>, done: seq<Pod>, pod: Pod, content: Tallies,
                      pair: TopologyPair)
    requires Partition(key, nodeMap, done, content)
    requires !pod.terminating && pod.nodeName in nodeMap
    requires pair == TopologyPair(key, DomainOf(nodeMap[pod.nodeName], key))
    ensures Partition(key, nodeMap, done + [pod], content[pair := Grown(content, pair, pod)])
  {
    GrownIsGroup(key, nodeMap, done, pod, content, pair);
    forall v | v != pair.value ensures Group(key, nodeMap, done + [pod], v) == Group(key, nodeMap, done, v) {
      GroupGrows(key, nodeMap, done, pod, v);
    }
    assert TopologyPair(key, pair.value) == pair;
  }

  method GroupPod(key: string, nodeMap: map<string, Node>, ghost done: seq<Pod>, pod: Pod, groups: Groups)
    returns (groups': Groups)
    requires GroupsOf(key, nodeMap, done, groups)
    modifies groups.Values
    ensures GroupsOf(key, nodeMap, done + [pod], groups')
    ensures forall pair | pair in groups' :: (pair in groups && groups'[pair] == groups[pair]) || fresh(groups'[pair])
  {
    if pod.terminating {
      PartitionSkip(key, nodeMap, done, pod, Content(groups));
      return groups;
    }
    if pod.nodeName !in nodeMap {
      PartitionSkip(key, nodeMap, done, pod, Content(groups));
      return groups;
    }
    var pair := TopologyPair(key, DomainOf(nodeMap[pod.nodeName], key));
    PartitionStep(key, nodeMap, done, pod, Content(groups), pair);
    groups' := Tally(pair, pod, groups);
  }

  method Tally(pair: TopologyPair, pod: Pod, groups: Groups) returns (groups': Groups)
    requires Unshared(groups)
    modifies groups.Values
    ensures Unshared(groups')
    ensures Content(groups') == old(Content(groups))[pair := Grown(old(Content(groups)), pair, pod)]
    ensures forall p | p in groups' :: (p in groups && groups'[p] == groups[p]) || fresh(groups'[p])
  {
    if pair !in groups {
      var counter := new TopoPairCount(pod);
      assert forall p | p in groups :: groups[p] != counter;
      groups' := groups[pair := counter];
    } else {
      groups[pair].Append(pod);
      groups' := groups;
    }
  }

  method CheckTopoReached(groups: Groups, c: Constraint) returns (reached: bool)
    ensures reached <==> forall pair | pair in groups :: Diff(c, pair.value, groups[pair].count) <= 0
  {
    var satisfied, notSatisfied := true, false;
    var todo := groups.Keys;
    while todo != {}
      invariant todo <= groups.Keys && satisfied
      invariant notSatisfied <==>
        exists pair :: pair in groups && pair !in todo && Diff(c, pair.value, groups[pair].count) > 0
    {
      var pair :| pair in todo;
      todo := todo - {pair};
      var diff := Diff(c, pair.value, groups[pair].count);
      if diff > 0 {
        notSatisfied := true;
        continue;
      } else if diff < 0 {
        satisfied := true;
      }
    }
    return satisfied && !notSatisfied;
  }

  lemma ReachedMeaning(c: Constraint, nodeMap: map<string, Node>, pods: seq<Pod>, content: Tallies)
    requires Partition(c.topologyKey, nodeMap, pods, content)
    ensures (forall pair | pair in content :: Diff(c, pair.value, content[pair].1) <= 0)
       <==> TopoReached(c, nodeMap, pods)
  {
    if forall pair | pair in content :: Diff(c, pair.value, content[pair].1) <= 0 {
      forall v | Group(c.topologyKey, nodeMap, pods, v) != []
        ensures Diff(c, v, Wrap(|Group(c.topologyKey, nodeMap, pods, v)|)) <= 0
      {
        assert TopologyPair(c.topologyKey, v) in content;
      }
    }
  }

  /**
   The verdict without int32: every value with pods has no more replicas than pods, zero replicas outside the
   policy, and not so few that the difference wraps.
   */
  lemma TopoReachedIff(c: Constraint, nodeMap: map<string, Node>, pods: seq<Pod>)
    requires |pods| <= MAX_INT32
    ensures TopoReached(c, nodeMap, pods) <==>
      forall v | Group(c.topologyKey, nodeMap, pods, v) != [] ::
        var n := |Group(c.topologyKey, nodeMap, pods, v)|;
        var replicas := if v in c.schedulePolicy then c.schedulePolicy[v] else 0;
        replicas <= n && replicas - n >= MIN_INT32
  {
    forall v
      ensures var n := |Group(c.topologyKey, nodeMap, pods, v)|;
              Diff(c, v, Wrap(n)) <= 0 <==> Desired(c, v) <= n && Desired(c, v) - n >= MIN_INT32
    {
    }
  }

  /** The eviction loop over the sorted pods; its index may run off the list. */
  method EvictFirst(key: string, nodeMap: map<string, Node>, pods: seq<Pod>, toDeleteCount: int, evictor: PodEvictor)
    returns (crashed: bool, ghost taken: seq<Attempt>)
    requires forall p | p in pods :: p.nodeName in nodeMap
    modifies evictor
    ensures evictor.log == old(evictor.log) + taken && Known(key, nodeMap, taken)
    ensures crashed <==> toDeleteCount > |pods|
    ensures PodsOf(taken) == if crashed then pods else if toDeleteCount < 0 then [] else pods[..toDeleteCount]
  {
    taken := [];
    var i := 0;
    while i < toDeleteCount
      invariant 0 <= i <= |pods| && PodsOf(taken) == pods[..i]
      invariant i > 0 ==> i <= toDeleteCount
      invariant evictor.log == old(evictor.log) + taken && Known(key, nodeMap, taken)
    {
      if i >= |pods| {
        return true, taken;
      }
      var node := nodeMap[pods[i].nodeName];
      var ok := evictor.EvictPod(pods[i], node);
      taken := taken + [Attempt(pods[i], node, ok)];
      assert PodsOf(taken) == pods[..i + 1];
      i := i + 1;
    }
    return false, taken;
  }

  lemma SameElements(group: seq<Pod>, s: seq<Pod>)
    requires multiset(s) == multiset(group)
    ensures |s| == |group| && forall p | p in s :: p in group
  {
    assert |s| == |multiset(s)| == |group|;
    forall p | p in s ensures p in group {
      assert p in multiset(s);
    }
  }

  lemma TakenIsFirst(group: seq<Pod>, s: seq<Pod>, k: int, ev: seq<Pod>)
    requires multiset(s) == multiset(group) && Sorted(s)
    requires ev == if k > |s| then s else if k < 0 then [] else s[..k]
    ensures FirstOf(group, if k > |group| then |group| else if k < 0 then 0 else k, ev)
  {
    SameElements(group, s);
    assert s[..|s|] == s;
  }

  /** The surplus of one value, sorted and then evicted from the front. */
  method EvictGroup(c: Constraint, nodeMap: map<string, Node>, pair: TopologyPair, counter: TopoPairCount,
                    evictor: PodEvictor)
    returns (crashed: bool, ghost taken: seq<Attempt>)
    requires forall p | p in counter.pods :: p.nodeName in nodeMap
    modifies counter`pods, evictor
    ensures evictor.log == old(evictor.log) + taken && Known(c.topologyKey, nodeMap, taken)
    ensures var k := ToDelete(c, pair.value, counter.count);
            && (crashed <==> k > |old(counter.pods)|)
            && FirstOf(old(counter.pods), if crashed then |old(counter.pods)| else k, PodsOf(taken))
  {
    var diff := Diff(c, pair.value, counter.count);
    if diff >= 0 {
      return false, [];
    }
    var toDeleteCount := Wrap(0 - (diff as int));
    counter.Sort();
    SameElements(old(counter.pods), counter.pods);
    crashed, taken := EvictFirst(c.topologyKey, nodeMap, counter.pods, toDeleteCount, evictor);
    TakenIsFirst(old(counter.pods), counter.pods, toDeleteCount, PodsOf(taken));
  }

  /** The loop index runs off the pods of some value, a panic that ends the whole strategy. */
  ghost predicate Crashes(c: Constraint, nodeMap: map<string, Node>, pods: seq<Pod>) {
    exists v :: Surplus(c, nodeMap, pods, v) > |Group(c.topologyKey, nodeMap, pods, v)|
  }

  /** What has been attempted while the groups of the values in `todo` are still to come. */
  ghost predicate Progress(c: Constraint, nodeMap: map<string, Node>, pods: seq<Pod>, todo: set<TopologyPair>,
                           taken: seq<Attempt>) {
    && Known(c.topologyKey, nodeMap, taken)
    && forall v ::
      if TopologyPair(c.topologyKey, v) in todo || Group(c.topologyKey, nodeMap, pods, v) == []
      then AttemptedOn(c.topologyKey, nodeMap, taken, v) == []
      else
        && ToDelete(c, v, Wrap(|Group(c.topologyKey, nodeMap, pods, v)|)) <= |Group(c.topologyKey, nodeMap, pods, v)|
        && FirstOf(Group(c.topologyKey, nodeMap, pods, v),
                   ToDelete(c, v, Wrap(|Group(c.topologyKey, nodeMap, pods, v)|)),
                   AttemptedOn(c.topologyKey, nodeMap, taken, v))
  }

  lemma FirstOfMember(group: seq<Pod>, k: nat, ev: seq<Pod>, p: Pod)
    requires FirstOf(group, k, ev) && p in ev
    ensures p in group
  {
    var s: seq<Pod> :| multiset(s) == multiset(group) && k <= |s| && ev == s[..k];
    assert p in s;
    assert p in multiset(s);
  }

  /** A block of attempts on pods of one value leaves what was attempted on the others. */
  lemma BlockOn(key: string, nodeMap: map<string, Node>, taken: seq<Attempt>, block: seq<Attempt>, v: string, w: string)
    requires forall p | p in PodsOf(block) :: PodDomain(key, nodeMap, p) == Some(v)
    ensures AttemptedOn(key, nodeMap, taken + block, w)
         == AttemptedOn(key, nodeMap, taken, w) + if w == v then PodsOf(block) else []
  {
    assert PodsOf(taken + block) == PodsOf(taken) + PodsOf(block);
    WhereConcat(OnDomain(key, nodeMap, w), PodsOf(taken), PodsOf(block));
    if w == v {
      WhereAll(OnDomain(key, nodeMap, w), PodsOf(block));
    } else {
      WhereNone(OnDomain(key, nodeMap, w), PodsOf(block));
    }
  }

  lemma ProgressStep(c: Constraint, nodeMap: map<string, Node>, pods: seq<Pod>, todo: set<TopologyPair>,
                     taken: seq<Attempt>, pair: TopologyPair, block: seq<Attempt>)
    requires Progress(c, nodeMap, pods, todo, taken) && pair in todo && pair.key == c.topologyKey
    requires Known(c.topologyKey, nodeMap, block)
    requires var group := Group(c.topologyKey, nodeMap, pods, pair.value);
             var k := ToDelete(c, pair.value, Wrap(|group|));
             group != [] && k <= |group| && FirstOf(group, k, PodsOf(block))
    ensures Progress(c, nodeMap, pods, todo - {pair}, taken + block)
  {
    var group := Group(c.topologyKey, nodeMap, pods, pair.value);
    forall p | p in PodsOf(block) ensures PodDomain(c.topologyKey, nodeMap, p) == Some(pair.value) {
      FirstOfMember(group, ToDelete(c, pair.value, Wrap(|group|)), PodsOf(block), p);
      WhereMember(LiveOn(c.topologyKey, nodeMap, pair.value), pods, p);
    }
    forall v
      ensures AttemptedOn(c.topologyKey, nodeMap, taken + block, v)
           == AttemptedOn(c.topologyKey, nodeMap, taken, v) + if v == pair.value then PodsOf(block) else []
    {
      BlockOn(c.topologyKey, nodeMap, taken, block, pair.value, v);
    }
    assert pair == TopologyPair(c.topologyKey, pair.value);
  }

  lemma GroupKnown(key: string, nodeMap: map<string, Node>, pods: seq<Pod>, v: string)
    ensures forall p | p in Group(key, nodeMap, pods, v) ::
      p in pods && !p.terminating && p.nodeName in nodeMap && DomainOf(nodeMap[p.nodeName], key) == v
  {
    forall p | p in Group(key, nodeMap, pods, v)
      ensures p in pods && LiveOn(key, nodeMap, v)(p)
    {
      WhereMember(LiveOn(key, nodeMap, v), pods, p);
    }
  }

  lemma ProgressStart(c: Constraint, nodeMap: map<string, Node>, pods: seq<Pod>, content: Tallies)
    requires Partition(c.topologyKey, nodeMap, pods, content)
    ensures Progress(c, nodeMap, pods, content.Keys, [])
  {
    assert PodsOf([]) == [];
  }

  lemma ProgressDone(c: Constraint, nodeMap: map<string, Node>, pods: seq<Pod>, taken: seq<Attempt>)
    requires Progress(c, nodeMap, pods, {}, taken) && !TopoReached(c, nodeMap, pods)
    ensures Outcome(c, nodeMap, pods, taken, false)
  {
    forall v
      ensures Surplus(c, nodeMap, pods, v) <= |Group(c.topologyKey, nodeMap, pods, v)|
      ensures FirstOf(Group(c.topologyKey, nodeMap, pods, v), Surplus(c, nodeMap, pods, v),
                      AttemptedOn(c.topologyKey, nodeMap, taken, v))
    {
      assert TopologyPair(c.topologyKey, v) !in {};
    }
  }

  /** Complete groups have been attempted, and then all of the sorted group of value w, where the index ran off. */
  ghost predicate CutAt(c: Constraint, nodeMap: map<string, Node>, pods: seq<Pod>, todo: set<TopologyPair>,
                        done: seq<Attempt>, block: seq<Attempt>, w: string) {
    var group := Group(c.topologyKey, nodeMap, pods, w);
    && TopologyPair(c.topologyKey, w) in todo && Progress(c, nodeMap, pods, todo, done)
    && Known(c.topologyKey, nodeMap, block)
    && group != [] && Surplus(c, nodeMap, pods, w) > |group| && FirstOf(group, |group|, PodsOf(block))
  }

  ghost predicate CutShort(c: Constraint, nodeMap: map<string, Node>, pods: seq<Pod>, log: seq<Attempt>) {
    exists todo, done, block, w :: log == done + block && CutAt(c, nodeMap, pods, todo, done, block, w)
  }

  /** What one policy's turn attempts, undisturbed or up to a panic. */
  ghost predicate Outcome(c: Constraint, nodeMap: map<string, Node>, pods: seq<Pod>, taken: seq<Attempt>,
                          crashed: bool) {
    && (crashed <==> Crashes(c, nodeMap, pods))
    && if crashed then CutShort(c, nodeMap, pods, taken) else Pass(c, nodeMap, pods, taken)
  }

  lemma CutOutcome(c: Constraint, nodeMap: map<string, Node>, pods: seq<Pod>, todo: set<TopologyPair>,
                   taken: seq<Attempt>, pair: TopologyPair, block: seq<Attempt>)
    requires !TopoReached(c, nodeMap, pods) && Progress(c, nodeMap, pods, todo, taken)
    requires pair in todo && pair.key == c.topologyKey && Known(c.topologyKey, nodeMap, block)
    requires var group := Group(c.topologyKey, nodeMap, pods, pair.value);
      && group != [] && ToDelete(c, pair.value, Wrap(|group|)) > |group| && FirstOf(group, |group|, PodsOf(block))
    ensures Outcome(c, nodeMap, pods, taken + block, true)
  {
    assert pair == TopologyPair(c.topologyKey, pair.value);
    assert Surplus(c, nodeMap, pods, pair.value) > |Group(c.topologyKey, nodeMap, pods, pair.value)|;
    assert CutAt(c, nodeMap, pods, todo, taken, block, pair.value);
  }

  /** One group of those still to come. */
  method EvictCounter(c: Constraint, nodeMap: map<string, Node>, ghost pods: seq<Pod>, ghost todo: set<TopologyPair>,
                      pair: TopologyPair, counter: TopoPairCount, ghost start: seq<Attempt>,
                      ghost taken: seq<Attempt>, evictor: PodEvictor)
    returns (crashed: bool, ghost taken': seq<Attempt>)
    requires evictor.log == start + taken
    requires !TopoReached(c, nodeMap, pods) && Progress(c, nodeMap, pods, todo, taken)
    requires pair in todo && pair.key == c.topologyKey
    requires counter.pods == Group(c.topologyKey, nodeMap, pods, pair.value) != []
    requires counter.count == Wrap(|counter.pods|)
    modifies counter`pods, evictor
    ensures evictor.log == start + taken'
    ensures crashed ==> Outcome(c, nodeMap, pods, taken', true)
    ensures !crashed ==> Progress(c, nodeMap, pods, todo - {pair}, taken')
  {
    GroupKnown(c.topologyKey, nodeMap, pods, pair.value);
    ghost var block;
    crashed, block := EvictGroup(c, nodeMap, pair, counter, evictor);
    taken' := taken + block;
    assert start + taken + block == start + taken';
    if crashed {
      CutOutcome(c, nodeMap, pods, todo, taken, pair, block);
    } else {
      ProgressStep(c, nodeMap, pods, todo, taken, pair, block);
    }
  }

  /** The groups still to come are as they were built. */
  ghost predicate Untouched(groups: Groups, todo: set<TopologyPair>, built: Tallies)
    reads groups.Values
  {
    forall pair | pair in todo ::
      pair in groups && pair in built && (groups[pair].pods, groups[pair].count) == built[pair]
  }

  method EvictNext(c: Constraint, nodeMap: map<string, Node>, ghost pods: seq<Pod>, groups: Groups,
                   ghost built: Tallies, ghost todo: set<TopologyPair>, pair: TopologyPair,
                   ghost start: seq<Attempt>, ghost taken: seq<Attempt>, evictor: PodEvictor)
    returns (crashed: bool, ghost taken': seq<Attempt>)
    requires evictor.log == start + taken
    requires Unshared(groups) && pair in todo && Untouched(groups, todo, built)
    requires Partition(c.topologyKey, nodeMap, pods, built)
    requires !TopoReached(c, nodeMap, pods) && Progress(c, nodeMap, pods, todo, taken)
    modifies groups.Values, evictor
    ensures evictor.log == start + taken'
    ensures crashed ==> Outcome(c, nodeMap, pods, taken', true)
    ensures !crashed ==> Progress(c, nodeMap, pods, todo - {pair}, taken')
    ensures Untouched(groups, todo - {pair}, built)
  {
    assert pair == TopologyPair(c.topologyKey, pair.value);
    crashed, taken' := EvictCounter(c, nodeMap, pods, todo, pair, groups[pair], start, taken, evictor);
  }

  /** All groups of one policy, in whatever order the map yields them. */
  method EvictSurplus(c: Constraint, nodeMap: map<string, Node>, ghost pods: seq<Pod>, groups: Groups,
                      evictor: PodEvictor)
    returns (crashed: bool, ghost taken: seq<Attempt>)
    requires GroupsOf(c.topologyKey, nodeMap, pods, groups)
    requires Progress(c, nodeMap, pods, groups.Keys, []) && !TopoReached(c, nodeMap, pods)
    modifies groups.Values, evictor
    ensures evictor.log == old(evictor.log) + taken && Outcome(c, nodeMap, pods, taken, crashed)
  {
    ghost var built := Content(groups);
    taken := [];
    var todo := groups.Keys;
    while todo != {}
      invariant todo <= groups.Keys && evictor.log == old(evictor.log) + taken
      invariant Untouched(groups, todo, built)
      invariant Progress(c, nodeMap, pods, todo, taken)
    {
      var pair :| pair in todo;
      crashed, taken := EvictNext(c, nodeMap, pods, groups, built, todo, pair, old(evictor.log), taken, evictor);
      if crashed {
        return true, taken;
      }
      todo := todo - {pair};
    }
    ProgressDone(c, nodeMap, pods, taken);
    return false, taken;
  }

  method BuildNodeMap(nodes: seq<Node>) returns (nodeMap: map<string, Node>)
    ensures nodeMap == NodeMapOf(nodes)
  {
    nodeMap := map[];
    for i := 0 to |nodes|
      invariant nodeMap == NodeMapOf(nodes[..i])
    {
      assert nodes[..i + 1][..i] == nodes[..i];
      nodeMap := nodeMap[nodes[i].name := nodes[i]];
    }
    assert nodes[..|nodes|] == nodes;
  }

  lemma ReachedPass(c: Constraint, nodeMap: map<string, Node>, pods: seq<Pod>)
    requires TopoReached(c, nodeMap, pods)
    ensures Outcome(c, nodeMap, pods, [], false)
  {
    assert PodsOf([]) == [];
  }

  /** One policy: list, group, decide, evict. */
  method DeschedulePolicy(c: Constraint, nodeMap: map<string, Node>, pods: seq<Pod>, evictor: PodEvictor)
    returns (crashed: bool, ghost taken: seq<Attempt>)
    modifies evictor
    ensures evictor.log == old(evictor.log) + taken && Outcome(c, nodeMap, pods, taken, crashed)
  {
    var groups := GroupPods(c.topologyKey, nodeMap, pods);
    ReachedMeaning(c, nodeMap, pods, Content(groups));
    var reached := CheckTopoReached(groups, c);
    if reached {
      ReachedPass(c, nodeMap, pods);
      return false, [];
    }
    ProgressStart(c, nodeMap, pods, Content(groups));
    crashed, taken := EvictSurplus(c, nodeMap, pods, groups, evictor);
  }

  /** A policy with what the API server answers when its namespace's pods are listed; a failed call is `None`. */
  datatype Listed = Listed(ref: PolicyRef, tsp: PolicySpec, pods: Option<seq<Pod>>) {
    predicate Usable() { tsp.selector.Some? && pods.Some? }
  }

  /** A policy without a usable selector or list is skipped. */
  ghost predicate PolicyOutcome(w: Listed, nodeMap: map<string, Node>, taken: seq<Attempt>, crashed: bool) {
    if w.Usable() then Outcome(ConstraintOf(w.tsp), nodeMap, w.pods.value, taken, crashed)
    else !crashed && taken == []
  }

  function Flatten(passes: seq<seq<Attempt>>): seq<Attempt> {
    if passes == [] then [] else Flatten(passes[..|passes| - 1]) + passes[|passes| - 1]
  }

  method HandlePolicy(w: Listed, nodeMap: map<string, Node>, evictor: PodEvictor) returns (crashed: bool,
                      ghost taken: seq<Attempt>)
    modifies evictor
    ensures evictor.log == old(evictor.log) + taken && PolicyOutcome(w, nodeMap, taken, crashed)
  {
    if w.tsp.selector.None? {
      return false, [];
    }
    var schedulePolicy := CovertPolicy(w.tsp.deployPlacement);
    var constraint := Constraint(w.tsp.topologyKey, schedulePolicy, w.tsp.selector.value);
    if w.pods.None? {
      return false, [];
    }
    crashed, taken := DeschedulePolicy(constraint, nodeMap, w.pods.value, evictor);
  }

  /** What the policy lister answers. */
  datatype PolicyList =
    | NoLister
    | ListFailed
    | Policies(tsps: seq<Listed>)

  /** The policies so far had their outcome, and only the last may have panicked. */
  ghost predicate Handled(nodeMap: map<string, Node>, tsps: seq<Listed>, passes: seq<seq<Attempt>>, crashed: bool) {
    && |passes| <= |tsps| && (crashed ==> passes != [])
    && forall i | 0 <= i < |passes| :: PolicyOutcome(tsps[i], nodeMap, passes[i], crashed && i == |passes| - 1)
  }

  lemma HandledSnoc(nodeMap: map<string, Node>, tsps: seq<Listed>, passes: seq<seq<Attempt>>, taken: seq<Attempt>,
                    crashed: bool)
    requires Handled(nodeMap, tsps, passes, false) && |passes| < |tsps|
    requires PolicyOutcome(tsps[|passes|], nodeMap, taken, crashed)
    ensures Handled(nodeMap, tsps, passes + [taken], crashed)
  {
    var more, n := passes + [taken], |passes|;
    forall i | 0 <= i <= n ensures PolicyOutcome(tsps[i], nodeMap, more[i], crashed && i == n) {
      if i < n {
        assert more[i] == passes[i] && PolicyOutcome(tsps[i], nodeMap, passes[i], false && i == n - 1);
      }
    }
  }

  lemma FlattenSnoc(passes: seq<seq<Attempt>>, taken: seq<Attempt>)
    ensures Flatten(passes + [taken]) == Flatten(passes) + taken
  {
    assert (passes + [taken])[..|passes|] == passes;
  }

  method HandleNext(nodeMap: map<string, Node>, tsps: seq<Listed>, ghost passes: seq<seq<Attempt>>, i: nat,
                    ghost start: seq<Attempt>, evictor: PodEvictor)
    returns (crashed: bool, ghost passes': seq<seq<Attempt>>)
    requires i == |passes| < |tsps| && Handled(nodeMap, tsps, passes, false)
    requires evictor.log == start + Flatten(passes)
    modifies evictor
    ensures |passes'| == i + 1 && Handled(nodeMap, tsps, passes', crashed)
    ensures evictor.log == start + Flatten(passes')
  {
    ghost var taken;
    crashed, taken := HandlePolicy(tsps[i], nodeMap, evictor);
    HandledSnoc(nodeMap, tsps, passes, taken, crashed);
    FlattenSnoc(passes, taken);
    passes' := passes + [taken];
  }

  /** The policies in turn. A panic ends the loop; every other trouble only skips the policy concerned. */
  method HandlePolicies(nodeMap: map<string, Node>, tsps: seq<Listed>, evictor: PodEvictor)
    returns (crashed: bool, ghost passes: seq<seq<Attempt>>)
    modifies evictor
    ensures evictor.log == old(evictor.log) + Flatten(passes)
    ensures Handled(nodeMap, tsps, passes, crashed) && (!crashed ==> |passes| == |tsps|)
  {
    passes := [];
    for i := 0 to |tsps|
      invariant |passes| == i && evictor.log == old(evictor.log) + Flatten(passes)
      invariant Handled(nodeMap, tsps, passes, false)
    {
      crashed, passes := HandleNext(nodeMap, tsps, passes, i, old(evictor.log), evictor);
      if crashed {
        return true, passes;
      }
    }
    return false, passes;
  }

  /** The whole strategy. Without a lister, or when listing the policies fails, it does nothing. */
  method RemovePodsViolatingTopologySchedulingPolicy(nodes: seq<Node>, list: PolicyList, evictor: PodEvictor)
    returns (crashed: bool, ghost passes: seq<seq<Attempt>>)
    modifies evictor
    ensures evictor.log == old(evictor.log) + Flatten(passes)
    ensures !list.Policies? ==> !crashed && passes == []
    ensures list.Policies? ==>
      Handled(NodeMapOf(nodes), list.tsps, passes, crashed) && (!crashed ==> |passes| == |list.tsps|)
  {
    if list.NoLister? {
      return false, [];
    }
    var nodeMap := BuildNodeMap(nodes);
    if list.ListFailed? {
      return false, [];
    }
    crashed, passes := HandlePolicies(nodeMap, list.tsps, evictor);
  }

  /** How many are asked for, of n pods: the excess, unless the int32 difference or its negation wraps. */
  lemma ToDeleteMeaning(c: Constraint, v: string, n: nat)
    requires n <= MAX_INT32
    ensures ToDelete(c, v, n) == if n > Desired(c, v) && Desired(c, v) - n > MIN_INT32 then n - Desired(c, v) else 0
  {
  }

  /** The pass panics exactly when it acts and some value with pods has a negative number of replicas. */
  lemma CrashesIff(c: Constraint, nodeMap: map<string, Node>, pods: seq<Pod>)
    requires |pods| <= MAX_INT32
    ensures Crashes(c, nodeMap, pods) <==>
      && !TopoReached(c, nodeMap, pods)
      && exists v :: Group(c.topologyKey, nodeMap, pods, v) != [] && Desired(c, v) < 0
                  && Desired(c, v) - |Group(c.topologyKey, nodeMap, pods, v)| > MIN_INT32
  {
    forall v
      ensures Surplus(c, nodeMap, pods, v) > |Group(c.topologyKey, nodeMap, pods, v)| <==>
        && !TopoReached(c, nodeMap, pods) && Group(c.topologyKey, nodeMap, pods, v) != [] && Desired(c, v) < 0
        && Desired(c, v) - |Group(c.topologyKey, nodeMap, pods, v)| > MIN_INT32
    {
      ToDeleteMeaning(c, v, |Group(c.topologyKey, nodeMap, pods, v)|);
    }
  }
}
