/** What the scheduler's counters should hold: one recount of the whole snapshot. */
module Counting {
  import opened Cluster
  import opened Seqs

  predicate Countable(slot: Option<Pod>, selector: Selector, ns: string) {
    slot.Some? && !slot.value.terminating && slot.value.namespace == ns && selector(slot.value.labels)
  }

  function MatchCount(slots: seq<Option<Pod>>, selector: Selector, ns: string): nat {
    |Where(slot => Countable(slot, selector, ns), slots)|
  }

  lemma MatchCountSnoc(slots: seq<Option<Pod>>, slot: Option<Pod>, selector: Selector, ns: string)
    ensures MatchCount(slots + [slot], selector, ns)
         == MatchCount(slots, selector, ns) + if Countable(slot, selector, ns) then 1 else 0
  {
    WhereSnoc(slot => Countable(slot, selector, ns), slots, slot);
  }

  method CountPodsMatchSelector(podInfos: seq<Option<Pod>>, selector: Selector, ns: string) returns (count: int)
    ensures count == MatchCount(podInfos, selector, ns)
  {
    count := 0;
    for i := 0 to |podInfos|
      invariant count == MatchCount(podInfos[..i], selector, ns)
    {
      assert podInfos[..i + 1] == podInfos[..i] + [podInfos[i]];
      MatchCountSnoc(podInfos[..i], podInfos[i], selector, ns);
      if podInfos[i].None? {
        continue;
      }
      var pod := podInfos[i].value;
      if pod.terminating || pod.namespace != ns {
        continue;
      }
      if selector(pod.labels) {
        count := count + 1;
      }
    }
    assert podInfos[..|podInfos|] == podInfos;
  }

  /** What one node adds to the counter of value v. A node without the label belongs to "". */
  function Contribution(info: NodeInfo, c: Constraint, ns: string, v: string): nat {
    if info.node.Some? && DomainOf(info.node.value, c.topologyKey) == v
    then MatchCount(info.pods, c.selector, ns) else 0
  }

  function Contributions(infos: seq<NodeInfo>, c: Constraint, ns: string, v: string): (r: seq<nat>) {
    seq(|infos|, i requires 0 <= i < |infos| => Contribution(infos[i], c, ns, v))
  }

  function ScanCount(infos: seq<NodeInfo>, c: Constraint, ns: string, v: string): nat {
    Sum(Contributions(infos, c, ns, v))
  }

  /** Changing one node changes the scan by the change of its contribution. */
  lemma ScanUpdate(infos: seq<NodeInfo>, i: nat, info: NodeInfo, c: Constraint, ns: string, v: string)
    requires i < |infos|
    ensures ScanCount(infos[i := info], c, ns, v)
         == ScanCount(infos, c, ns, v) - Contribution(infos[i], c, ns, v) + Contribution(info, c, ns, v)
  {
    assert Contributions(infos[i := info], c, ns, v)
        == Contributions(infos, c, ns, v)[i := Contribution(info, c, ns, v)];
    SumUpdate(Contributions(infos, c, ns, v), i, Contribution(info, c, ns, v));
  }

  /** The slots with a pod that counts: present, live, of the namespace, and selected. */
  function Slots(slots: seq<Option<Pod>>, selector: Selector, ns: string): set<int> {
    set j | 0 <= j < |slots| && slots[j].Some? && !slots[j].value.terminating
            && slots[j].value.namespace == ns && selector(slots[j].value.labels)
  }

  lemma SlotsSnoc(slots: seq<Option<Pod>>, slot: Option<Pod>, selector: Selector, ns: string)
    ensures Slots(slots + [slot], selector, ns)
         == Slots(slots, selector, ns) + if Countable(slot, selector, ns) then {|slots|} else {}
  {
    var more := slots + [slot];
    assert forall j | 0 <= j < |slots| :: more[j] == slots[j];
    assert more[|slots|] == slot;
  }

  lemma {:induction false} MatchCountIsSize(slots: seq<Option<Pod>>, selector: Selector, ns: string)
    ensures MatchCount(slots, selector, ns) == |Slots(slots, selector, ns)|
  {
    if slots == [] {
      assert Slots(slots, selector, ns) == {};
    } else {
      var rest, last := slots[..|slots| - 1], slots[|slots| - 1];
      assert slots == rest + [last];
      MatchCountIsSize(rest, selector, ns);
      MatchCountSnoc(rest, last, selector, ns);
      SlotsSnoc(rest, last, selector, ns);
    }
  }

  function Paired<T(==)>(i: int, s: set<T>): set<(int, T)> {
    set j | j in s :: (i, j)
  }

  lemma {:induction false} PairedSize<T>(i: int, s: set<T>)
    ensures |Paired(i, s)| == |s|
    decreases |s|
  {
    if x :| x in s {
      PairedSize(i, s - {x});
      assert Paired(i, s) == Paired(i, s - {x}) + {(i, x)};
    } else {
      assert s == {} && Paired(i, s) == {};
    }
  }

  /** The pods that count for value v, each named by its node and its slot there. */
  function Places(infos: seq<NodeInfo>, c: Constraint, ns: string, v: string): set<(int, int)> {
    set i, j | 0 <= i < |infos| && infos[i].node.Some? && DomainOf(infos[i].node.value, c.topologyKey) == v
               && j in Slots(infos[i].pods, c.selector, ns) :: (i, j)
  }

  lemma PlacesSnoc(infos: seq<NodeInfo>, info: NodeInfo, c: Constraint, ns: string, v: string)
    ensures Places(infos + [info], c, ns, v)
         == Places(infos, c, ns, v)
            + if info.node.Some? && DomainOf(info.node.value, c.topologyKey) == v
              then Paired(|infos|, Slots(info.pods, c.selector, ns)) else {}
  {
    var more := infos + [info];
    assert forall i | 0 <= i < |infos| :: more[i] == infos[i];
    assert more[|infos|] == info;
  }

  /** The scan count is the number of places. */
  lemma {:induction false} ScanCountIsSize(infos: seq<NodeInfo>, c: Constraint, ns: string, v: string)
    ensures ScanCount(infos, c, ns, v) == |Places(infos, c, ns, v)|
  {
    if infos == [] {
      assert Places(infos, c, ns, v) == {};
    } else {
      var rest, last := infos[..|infos| - 1], infos[|infos| - 1];
      assert infos == rest + [last];
      ScanCountIsSize(rest, c, ns, v);
      assert Contributions(infos, c, ns, v)[..|rest|] == Contributions(rest, c, ns, v);
      PlacesSnoc(rest, last, c, ns, v);
      MatchCountIsSize(last.pods, c.selector, ns);
      PairedSize(|rest|, Slots(last.pods, c.selector, ns));
    }
  }

  /** Phase one keys a value when some node carries it and passes the pod's node affinity. */
  predicate Keys(info: NodeInfo, affinity: Node -> bool, key: string) {
    info.node.Some? && affinity(info.node.value) && key in info.node.value.labels
  }

  function KeyedPairs(infos: seq<NodeInfo>, affinity: Node -> bool, key: string): set<TopologyPair> {
    set i | 0 <= i < |infos| && Keys(infos[i], affinity, key) :: TopologyPair(key, DomainOf(infos[i].node.value, key))
  }

  function Recount(infos: seq<NodeInfo>, affinity: Node -> bool, c: Constraint, ns: string): map<TopologyPair, int32> {
    map pair | pair in KeyedPairs(infos, affinity, c.topologyKey) :: Wrap(ScanCount(infos, c, ns, pair.value))
  }

  predicate AllPresent(infos: seq<NodeInfo>) {
    forall i | 0 <= i < |infos| :: infos[i].node.Some?
  }
}
