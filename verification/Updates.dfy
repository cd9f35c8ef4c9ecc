/** What one pod added to or removed from a node does to the counters, and what runs of such events do. */
module Updates {
  import opened Cluster

  /** AddPod and Reserve add the pod; RemovePod and Unreserve take it away. */
  datatype Event = Event(pod: Pod, node: Option<Node>, added: bool)

  function Delta(e: Event): int32 {
    if e.added then 1 else -1
  }

  type Counts = map<TopologyPair, int32>

  /** The pod belongs to the preemptor's namespace, is selected, and sits on a labelled node. */
  predicate Relevant(c: Constraint, ns: string, pod: Pod, node: Option<Node>) {
    node.Some? && c.topologyKey in node.value.labels && Selected(c, ns, pod)
  }

  predicate Touches(c: Constraint, ns: string, pod: Pod, node: Option<Node>, pair: TopologyPair) {
    Relevant(c, ns, pod, node) && pair == TopologyPair(c.topologyKey, node.value.labels[c.topologyKey])
  }

  /** The update would go through a counter pointer that is nil. */
  predicate Faults(c: Constraint, ns: string, keyed: set<TopologyPair>, pod: Pod, node: Option<Node>) {
    Relevant(c, ns, pod, node) && TopologyPair(c.topologyKey, node.value.labels[c.topologyKey]) !in keyed
  }

  function Updated(c: Constraint, ns: string, counts: Counts, pod: Pod, node: Option<Node>, delta: int32): Counts
    requires !Faults(c, ns, counts.Keys, pod, node)
  {
    map pair | pair in counts ::
      if Touches(c, ns, pod, node, pair) then Add(counts[pair], delta) else counts[pair]
  }

  predicate NoFaults(c: Constraint, ns: string, keyed: set<TopologyPair>, es: seq<Event>) {
    forall e | e in es :: !Faults(c, ns, keyed, e.pod, e.node)
  }

  function Apply(c: Constraint, ns: string, counts: Counts, es: seq<Event>): (r: Counts)
    requires NoFaults(c, ns, counts.Keys, es)
    ensures r.Keys == counts.Keys
  {
    if es == [] then counts
    else
      var e := es[|es| - 1];
      Updated(c, ns, Apply(c, ns, counts, es[..|es| - 1]), e.pod, e.node, Delta(e))
  }

  function NetDelta(c: Constraint, ns: string, es: seq<Event>, pair: TopologyPair): int {
    if es == [] then 0
    else
      var e := es[|es| - 1];
      NetDelta(c, ns, es[..|es| - 1], pair) + if Touches(c, ns, e.pod, e.node, pair) then Delta(e) else 0
  }

  /** Conservation: every counter is its start plus the signed sum of the events that touch it. */
  lemma {:induction false} CountersConserveDeltas(c: Constraint, ns: string, counts: Counts, es: seq<Event>,
                            pair: TopologyPair)
    requires NoFaults(c, ns, counts.Keys, es) && pair in counts
    ensures Apply(c, ns, counts, es)[pair] == Add(counts[pair], NetDelta(c, ns, es, pair))
  {
    if es != [] {
      var prefix, e := es[..|es| - 1], es[|es| - 1];
      CountersConserveDeltas(c, ns, counts, prefix, pair);
      if Touches(c, ns, e.pod, e.node, pair) {
        WrapAdd(counts[pair] + NetDelta(c, ns, prefix, pair), Delta(e), counts[pair] + NetDelta(c, ns, es, pair));
      }
    }
  }

  lemma {:induction false} NetDeltaWithout(c: Constraint, ns: string, es: seq<Event>, i: nat, pair: TopologyPair)
    requires i < |es|
    ensures NetDelta(c, ns, es, pair) == NetDelta(c, ns, es[..i] + es[i + 1..], pair)
                                      + if Touches(c, ns, es[i].pod, es[i].node, pair) then Delta(es[i]) else 0
  {
    var last := |es| - 1;
    if i == last {
      assert es[..i] + es[i + 1..] == es[..last];
    } else {
      NetDeltaWithout(c, ns, es[..last], i, pair);
      var shorter := es[..i] + es[i + 1..];
      assert shorter[..last - 1] == es[..last][..i] + es[..last][i + 1..];
      assert shorter[last - 1] == es[last];
    }
  }

  lemma MultisetWithout<T>(es: seq<T>, fs: seq<T>) returns (i: nat)
    requires multiset(es) == multiset(fs) && es != []
    ensures i < |fs| && fs[i] == es[|es| - 1]
    ensures multiset(es[..|es| - 1]) == multiset(fs[..i] + fs[i + 1..])
  {
    var prefix, e := es[..|es| - 1], es[|es| - 1];
    assert es == prefix + [e];
    assert e in multiset(es);
    i :| 0 <= i < |fs| && fs[i] == e;
    assert fs == fs[..i] + [e] + fs[i + 1..];
    assert multiset(es) == multiset(prefix) + multiset{e};
    assert multiset(fs) == multiset(fs[..i] + fs[i + 1..]) + multiset{e};
    assert multiset(prefix) == multiset(es) - multiset{e};
  }

  lemma {:induction false} NetDeltaReordered(c: Constraint, ns: string, es: seq<Event>, fs: seq<Event>,
                            pair: TopologyPair)
    requires multiset(es) == multiset(fs)
    ensures NetDelta(c, ns, es, pair) == NetDelta(c, ns, fs, pair)
    decreases |es|
  {
    if es == [] {
      assert fs == [] by { assert |multiset(fs)| == 0; }
    } else {
      var i := MultisetWithout(es, fs);
      NetDeltaReordered(c, ns, es[..|es| - 1], fs[..i] + fs[i + 1..], pair);
      NetDeltaWithout(c, ns, fs, i, pair);
    }
  }

  lemma NoFaultsReordered(c: Constraint, ns: string, keyed: set<TopologyPair>, es: seq<Event>, fs: seq<Event>)
    requires multiset(es) == multiset(fs) && NoFaults(c, ns, keyed, es)
    ensures NoFaults(c, ns, keyed, fs)
  {
    forall e | e in fs ensures !Faults(c, ns, keyed, e.pod, e.node) {
      assert e in multiset(fs);
      assert e in es;
    }
  }

  lemma {:induction false} SameNetDeltaSameCounter(c: Constraint, ns: string, counts: Counts,
                                                   es: seq<Event>, fs: seq<Event>, pair: TopologyPair)
    requires NoFaults(c, ns, counts.Keys, es) && NoFaults(c, ns, counts.Keys, fs) && pair in counts
    requires multiset(es) == multiset(fs)
    ensures Apply(c, ns, counts, es)[pair] == Apply(c, ns, counts, fs)[pair]
  {
    CountersConserveDeltas(c, ns, counts, es, pair);
    CountersConserveDeltas(c, ns, counts, fs, pair);
    NetDeltaReordered(c, ns, es, fs, pair);
  }

  /** The order in which the framework delivers the events does not matter. */
  lemma {:induction false} OrderIsIrrelevant(c: Constraint, ns: string, counts: Counts, es: seq<Event>, fs: seq<Event>)
    requires multiset(es) == multiset(fs) && NoFaults(c, ns, counts.Keys, es)
    ensures NoFaults(c, ns, counts.Keys, fs)
    ensures Apply(c, ns, counts, es) == Apply(c, ns, counts, fs)
  {
    NoFaultsReordered(c, ns, counts.Keys, es, fs);
    forall pair | pair in counts
      ensures Apply(c, ns, counts, es)[pair] == Apply(c, ns, counts, fs)[pair]
    {
      SameNetDeltaSameCounter(c, ns, counts, es, fs, pair);
    }
  }

  function Undo(es: seq<Event>): (r: seq<Event>)
    ensures |r| == |es| && forall i | 0 <= i < |es| :: r[i] == es[i].(added := !es[i].added)
  {
    seq(|es|, i requires 0 <= i < |es| => es[i].(added := !es[i].added))
  }

  lemma {:induction false} UndoneNetDelta(c: Constraint, ns: string, es: seq<Event>, fs: seq<Event>, pair: TopologyPair)
    ensures NetDelta(c, ns, fs + Undo(es), pair) == NetDelta(c, ns, fs, pair) - NetDelta(c, ns, es, pair)
  {
    if es == [] {
      assert fs + Undo(es) == fs;
    } else {
      var prefix := es[..|es| - 1];
      UndoneNetDelta(c, ns, prefix, fs, pair);
      assert (fs + Undo(es))[..|fs + Undo(es)| - 1] == fs + Undo(prefix);
    }
  }

  lemma UndoNoFaults(c: Constraint, ns: string, keyed: set<TopologyPair>, es: seq<Event>)
    requires NoFaults(c, ns, keyed, es)
    ensures NoFaults(c, ns, keyed, es + Undo(es))
  {
    forall e | e in Undo(es) ensures !Faults(c, ns, keyed, e.pod, e.node) {
      var i :| 0 <= i < |es| && Undo(es)[i] == e;
      assert es[i] in es;
    }
  }

  lemma {:induction false} UndoneCounter(c: Constraint, ns: string, counts: Counts, es: seq<Event>, pair: TopologyPair)
    requires NoFaults(c, ns, counts.Keys, es + Undo(es)) && pair in counts
    ensures Apply(c, ns, counts, es + Undo(es))[pair] == counts[pair]
  {
    CountersConserveDeltas(c, ns, counts, es + Undo(es), pair);
    UndoneNetDelta(c, ns, es, es, pair);
  }

  /** Reservations that are all taken back, in any interleaving, leave every counter as it was. */
  lemma BalancedRunRestores(c: Constraint, ns: string, counts: Counts, es: seq<Event>, run: seq<Event>)
    requires multiset(run) == multiset(es + Undo(es)) && NoFaults(c, ns, counts.Keys, es)
    ensures NoFaults(c, ns, counts.Keys, run)
    ensures Apply(c, ns, counts, run) == counts
  {
    UndoNoFaults(c, ns, counts.Keys, es);
    OrderIsIrrelevant(c, ns, counts, es + Undo(es), run);
    forall pair | pair in counts ensures Apply(c, ns, counts, es + Undo(es))[pair] == counts[pair] {
      UndoneCounter(c, ns, counts, es, pair);
    }
  }
}
