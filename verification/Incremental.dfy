/** Keeping the counters current gives what counting the changed snapshot again would give. */
module Incremental {
  import opened Cluster
  import opened Seqs
  import opened Counting
  import opened Updates

  /** A pod joins node i, or the pod in slot j of node i leaves. */
  datatype Change =
    | Joins(i: nat, pod: Pod)
    | Leaves(i: nat, j: nat)

  predicate Possible(infos: seq<NodeInfo>, ch: Change) {
    && ch.i < |infos| && infos[ch.i].node.Some?
    && (ch.Leaves? ==> ch.j < |infos[ch.i].pods| && infos[ch.i].pods[ch.j].Some?)
  }

  function EventOf(infos: seq<NodeInfo>, ch: Change): Event
    requires Possible(infos, ch)
  {
    match ch
    case Joins(i, pod) => Event(pod, infos[i].node, true)
    case Leaves(i, j) => Event(infos[i].pods[j].value, infos[i].node, false)
  }

  function ChangedNode(infos: seq<NodeInfo>, ch: Change): NodeInfo
    requires Possible(infos, ch)
  {
    var info := infos[ch.i];
    match ch
    case Joins(_, pod) => info.(pods := info.pods + [Some(pod)])
    case Leaves(_, j) => info.(pods := info.pods[..j] + info.pods[j + 1..])
  }

  function Changed(infos: seq<NodeInfo>, ch: Change): seq<NodeInfo>
    requires Possible(infos, ch)
  {
    infos[ch.i := ChangedNode(infos, ch)]
  }

  /**
   The update treats the pod as the recount does. They differ on selected pods that are terminating,
   which only the recount skips, and on selected pods of an unlabelled node, which only the recount
   puts under "" when some node keys that value.
   */
  predicate Mirrors(c: Constraint, ns: string, keyed: set<TopologyPair>, e: Event) {
    e.node.Some? && Selected(c, ns, e.pod) ==>
      if c.topologyKey in e.node.value.labels then !e.pod.terminating
      else e.pod.terminating || TopologyPair(c.topologyKey, "") !in keyed
  }

  lemma {:induction false} MatchCountWithout(slots: seq<Option<Pod>>, j: nat, selector: Selector, ns: string)
    requires j < |slots|
    ensures MatchCount(slots, selector, ns) == MatchCount(slots[..j] + slots[j + 1..], selector, ns)
                                             + if Countable(slots[j], selector, ns) then 1 else 0
  {
    var last := |slots| - 1;
    assert slots == slots[..last] + [slots[last]];
    MatchCountSnoc(slots[..last], slots[last], selector, ns);
    if j == last {
      assert slots[..j] + slots[j + 1..] == slots[..last];
    } else {
      MatchCountWithout(slots[..last], j, selector, ns);
      var shorter := slots[..last][..j] + slots[..last][j + 1..];
      assert slots[..j] + slots[j + 1..] == shorter + [slots[last]];
      MatchCountSnoc(shorter, slots[last], selector, ns);
    }
  }

  /** The recount moves by one, at the pod's value, exactly when the pod counts. */
  lemma ScanMoves(infos: seq<NodeInfo>, ch: Change, c: Constraint, ns: string, v: string)
    requires Possible(infos, ch)
    ensures var e := EventOf(infos, ch);
            ScanCount(Changed(infos, ch), c, ns, v) - ScanCount(infos, c, ns, v)
            == if DomainOf(e.node.value, c.topologyKey) == v && Selected(c, ns, e.pod) && !e.pod.terminating
               then Delta(e) else 0
  {
    ScanUpdate(infos, ch.i, ChangedNode(infos, ch), c, ns, v);
    var slots := infos[ch.i].pods;
    match ch
    case Joins(_, pod) => MatchCountSnoc(slots, Some(pod), c.selector, ns);
    case Leaves(_, j) => MatchCountWithout(slots, j, c.selector, ns);
  }

  lemma SameKeys(infos: seq<NodeInfo>, ch: Change, affinity: Node -> bool, key: string)
    requires Possible(infos, ch)
    ensures KeyedPairs(Changed(infos, ch), affinity, key) == KeyedPairs(infos, affinity, key)
  {
    var infos' := Changed(infos, ch);
    assert forall i | 0 <= i < |infos| :: infos'[i].node == infos[i].node;
    assert forall i | 0 <= i < |infos| :: Keys(infos'[i], affinity, key) == Keys(infos[i], affinity, key);
  }

  predicate AgreeAt(infos: seq<NodeInfo>, ch: Change, c: Constraint, ns: string, pair: TopologyPair)
    requires Possible(infos, ch)
  {
    var e := EventOf(infos, ch);
    var before := Wrap(ScanCount(infos, c, ns, pair.value));
    (if Touches(c, ns, e.pod, e.node, pair) then Add(before, Delta(e)) else before)
    == Wrap(ScanCount(Changed(infos, ch), c, ns, pair.value))
  }

  lemma AddMoves(x: int, delta: int)
    requires delta == 1 || delta == -1
    ensures Add(Wrap(x), delta) == Wrap(x + delta) != Wrap(x)
  {
    WrapAdd(x, delta, x + delta);
  }

  lemma AgreesAt(infos: seq<NodeInfo>, ch: Change, c: Constraint, ns: string, pair: TopologyPair)
    requires Possible(infos, ch) && pair.key == c.topologyKey
    ensures var e := EventOf(infos, ch);
            AgreeAt(infos, ch, c, ns, pair)
            <==> (DomainOf(e.node.value, c.topologyKey) == pair.value && Selected(c, ns, e.pod) ==>
                    if c.topologyKey in e.node.value.labels then !e.pod.terminating else e.pod.terminating)
  {
    ScanMoves(infos, ch, c, ns, pair.value);
    AddMoves(ScanCount(infos, c, ns, pair.value), Delta(EventOf(infos, ch)));
  }

  lemma AgreeMeans(infos: seq<NodeInfo>, ch: Change, affinity: Node -> bool, c: Constraint, ns: string,
                   pair: TopologyPair)
    requires Possible(infos, ch) && pair in KeyedPairs(infos, affinity, c.topologyKey)
    requires var e := EventOf(infos, ch); !Faults(c, ns, KeyedPairs(infos, affinity, c.topologyKey), e.pod, e.node)
    ensures var e := EventOf(infos, ch);
            var recounted := Recount(Changed(infos, ch), affinity, c, ns);
            && pair in recounted
            && (Updated(c, ns, Recount(infos, affinity, c, ns), e.pod, e.node, Delta(e))[pair] == recounted[pair]
                <==> AgreeAt(infos, ch, c, ns, pair))
  {
    SameKeys(infos, ch, affinity, c.topologyKey);
  }

  lemma EqualIffAgree(infos: seq<NodeInfo>, ch: Change, affinity: Node -> bool, c: Constraint, ns: string)
    requires Possible(infos, ch)
    requires var e := EventOf(infos, ch); !Faults(c, ns, KeyedPairs(infos, affinity, c.topologyKey), e.pod, e.node)
    ensures var e := EventOf(infos, ch);
            Updated(c, ns, Recount(infos, affinity, c, ns), e.pod, e.node, Delta(e))
            == Recount(Changed(infos, ch), affinity, c, ns)
            <==> forall pair | pair in KeyedPairs(infos, affinity, c.topologyKey) :: AgreeAt(infos, ch, c, ns, pair)
  {
    var e := EventOf(infos, ch);
    var updated := Updated(c, ns, Recount(infos, affinity, c, ns), e.pod, e.node, Delta(e));
    SameKeys(infos, ch, affinity, c.topologyKey);
    SameMap(updated, Recount(Changed(infos, ch), affinity, c, ns));
    forall pair | pair in updated {
      AgreeMeans(infos, ch, affinity, c, ns, pair);
    }
  }

  lemma SameMap(a: Counts, b: Counts)
    requires a.Keys == b.Keys
    ensures a == b <==> forall pair | pair in a :: a[pair] == b[pair]
  {
  }

  /** One change: updating the counters agrees with recounting if and only if the event mirrors the change. */
  lemma UpdateAgreesIffMirrored(infos: seq<NodeInfo>, ch: Change, affinity: Node -> bool, c: Constraint, ns: string)
    requires Possible(infos, ch)
    requires var e := EventOf(infos, ch); !Faults(c, ns, KeyedPairs(infos, affinity, c.topologyKey), e.pod, e.node)
    ensures var e := EventOf(infos, ch);
            Updated(c, ns, Recount(infos, affinity, c, ns), e.pod, e.node, Delta(e))
            == Recount(Changed(infos, ch), affinity, c, ns)
            <==> (e.pod.namespace == ns && c.selector(e.pod.labels) ==>
                    if c.topologyKey in e.node.value.labels then !e.pod.terminating
                    else e.pod.terminating
                         || TopologyPair(c.topologyKey, "") !in KeyedPairs(infos, affinity, c.topologyKey))
  {
    EqualIffAgree(infos, ch, affinity, c, ns);
    forall pair | pair in KeyedPairs(infos, affinity, c.topologyKey) {
      AgreesAt(infos, ch, c, ns, pair);
    }
    var own := TopologyPair(c.topologyKey, DomainOf(EventOf(infos, ch).node.value, c.topologyKey));
    assert own in KeyedPairs(infos, affinity, c.topologyKey) ==> own.key == c.topologyKey;
  }

  ghost function After(infos: seq<NodeInfo>, chs: seq<Change>): seq<NodeInfo>
    requires PossibleRun(infos, chs)
    decreases |chs|, 1
  {
    if chs == [] then infos else Changed(After(infos, chs[..|chs| - 1]), chs[|chs| - 1])
  }

  ghost predicate PossibleRun(infos: seq<NodeInfo>, chs: seq<Change>)
    decreases |chs|, 0
  {
    chs != [] ==>
      PossibleRun(infos, chs[..|chs| - 1]) && Possible(After(infos, chs[..|chs| - 1]), chs[|chs| - 1])
  }

  ghost function EventsOf(infos: seq<NodeInfo>, chs: seq<Change>): seq<Event>
    requires PossibleRun(infos, chs)
  {
    if chs == [] then []
    else EventsOf(infos, chs[..|chs| - 1]) + [EventOf(After(infos, chs[..|chs| - 1]), chs[|chs| - 1])]
  }

  /** Every event of the run mirrors its change, and none goes through a missing counter. */
  ghost predicate MirroredRun(infos: seq<NodeInfo>, chs: seq<Change>, affinity: Node -> bool, c: Constraint, ns: string)
    requires PossibleRun(infos, chs)
  {
    var keyed := KeyedPairs(infos, affinity, c.topologyKey);
    NoFaults(c, ns, keyed, EventsOf(infos, chs)) && forall e | e in EventsOf(infos, chs) :: Mirrors(c, ns, keyed, e)
  }

  lemma MirroredPrefix(infos: seq<NodeInfo>, chs: seq<Change>, affinity: Node -> bool, c: Constraint, ns: string)
    requires chs != [] && PossibleRun(infos, chs) && MirroredRun(infos, chs, affinity, c, ns)
    ensures MirroredRun(infos, chs[..|chs| - 1], affinity, c, ns)
    ensures var e := EventOf(After(infos, chs[..|chs| - 1]), chs[|chs| - 1]);
            && !Faults(c, ns, KeyedPairs(infos, affinity, c.topologyKey), e.pod, e.node)
            && Mirrors(c, ns, KeyedPairs(infos, affinity, c.topologyKey), e)
  {
    var es, e := EventsOf(infos, chs[..|chs| - 1]), EventOf(After(infos, chs[..|chs| - 1]), chs[|chs| - 1]);
    assert e in EventsOf(infos, chs);
    assert forall x | x in es :: x in EventsOf(infos, chs);
  }

  /** Any run of mirrored changes: the updated counters are those of the final snapshot. */
  lemma {:induction false} RunAgrees(infos: seq<NodeInfo>, chs: seq<Change>, affinity: Node -> bool, c: Constraint,
                                     ns: string)
    requires PossibleRun(infos, chs) && MirroredRun(infos, chs, affinity, c, ns)
    ensures KeyedPairs(After(infos, chs), affinity, c.topologyKey) == KeyedPairs(infos, affinity, c.topologyKey)
    ensures Apply(c, ns, Recount(infos, affinity, c, ns), EventsOf(infos, chs))
         == Recount(After(infos, chs), affinity, c, ns)
  {
    if chs != [] {
      var prefix, ch := chs[..|chs| - 1], chs[|chs| - 1];
      var es, e := EventsOf(infos, prefix), EventOf(After(infos, prefix), ch);
      MirroredPrefix(infos, chs, affinity, c, ns);
      RunAgrees(infos, prefix, affinity, c, ns);
      assert EventsOf(infos, chs) == es + [e] && (es + [e])[..|es|] == es;
      UpdateAgreesIffMirrored(After(infos, prefix), ch, affinity, c, ns);
      SameKeys(After(infos, prefix), ch, affinity, c.topologyKey);
    }
  }

  /** So a counter that is only decremented for pods that were counted never goes below zero. */
  lemma {:induction false} CountersStayNonNegative(infos: seq<NodeInfo>, chs: seq<Change>, affinity: Node -> bool,
                                                   c: Constraint, ns: string, pair: TopologyPair)
    requires PossibleRun(infos, chs) && MirroredRun(infos, chs, affinity, c, ns)
    requires pair in KeyedPairs(infos, affinity, c.topologyKey)
    requires ScanCount(After(infos, chs), c, ns, pair.value) <= MAX_INT32
    ensures Apply(c, ns, Recount(infos, affinity, c, ns), EventsOf(infos, chs))[pair] >= 0
  {
    RunAgrees(infos, chs, affinity, c, ns);
  }
}
