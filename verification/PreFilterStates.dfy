/** The scheduling cycle's counters as the plugin holds them: a map of shared, mutable counters. */
module PreFilterStates {
  import opened Cluster
  import opened Updates

  /** An *int32 of the source. */
  class Counter {
    var value: int32

    constructor (value: int32)
      ensures this.value == value
    {
      this.value := value;
    }
  }

  class PreFilterState {
    const constraint: Constraint
    const scheduleStrategy: string
    var tpPairToMatchNum: map<TopologyPair, Counter>

    /** No two values share a counter. */
    ghost predicate Valid()
      reads this
    {
      forall p, q | p in tpPairToMatchNum && q in tpPairToMatchNum && p != q ::
        tpPairToMatchNum[p] != tpPairToMatchNum[q]
    }

    function Counts(): (counts: Counts)
      reads this, tpPairToMatchNum.Values
      ensures counts.Keys == tpPairToMatchNum.Keys
    {
      map pair | pair in tpPairToMatchNum :: tpPairToMatchNum[pair].value
    }

    constructor (constraint: Constraint, scheduleStrategy: string)
      ensures Valid() && this.constraint == constraint && this.scheduleStrategy == scheduleStrategy
      ensures tpPairToMatchNum == map[]
    {
      this.constraint := constraint;
      this.scheduleStrategy := scheduleStrategy;
      tpPairToMatchNum := map[];
    }

    /** `fault` is the nil dereference; it happens before anything is written. */
    method UpdateWithPod(updatedPod: Pod, preemptorPod: Pod, node: Option<Node>, delta: int32) returns (fault: bool)
      requires Valid()
      modifies tpPairToMatchNum.Values
      ensures fault == Faults(constraint, preemptorPod.namespace, old(Counts()).Keys, updatedPod, node)
      ensures fault ==> Counts() == old(Counts())
      ensures !fault ==> Counts() == Updated(constraint, preemptorPod.namespace, old(Counts()), updatedPod, node, delta)
    {
      if updatedPod.namespace != preemptorPod.namespace || node.None? {
        return false;
      }
      if constraint.topologyKey !in node.value.labels {
        return false;
      }
      if !constraint.selector(updatedPod.labels) {
        return false;
      }
      var pair := TopologyPair(constraint.topologyKey, node.value.labels[constraint.topologyKey]);
      if pair !in tpPairToMatchNum {
        return true;
      }
      var counter := tpPairToMatchNum[pair];
      counter.value := Add(counter.value, delta);
      return false;
    }

    method Clone() returns (copy: PreFilterState)
      requires Valid()
      ensures fresh(copy) && fresh(copy.tpPairToMatchNum.Values) && copy.Valid()
      ensures copy.constraint == constraint && copy.scheduleStrategy == scheduleStrategy
      ensures copy.Counts() == Counts()
    {
      copy := new PreFilterState(constraint, scheduleStrategy);
      var todo := tpPairToMatchNum.Keys;
      while todo != {}
        invariant todo <= tpPairToMatchNum.Keys
        invariant copy.Valid() && forall pair | pair in copy.tpPairToMatchNum :: fresh(copy.tpPairToMatchNum[pair])
        invariant copy.tpPairToMatchNum.Keys == tpPairToMatchNum.Keys - todo
        invariant forall pair | pair in copy.tpPairToMatchNum ::
          copy.tpPairToMatchNum[pair].value == tpPairToMatchNum[pair].value
      {
        var tpPair :| tpPair in todo;
        todo := todo - {tpPair};
        ghost var before := copy.tpPairToMatchNum;
        var copyCount := new Counter(tpPairToMatchNum[tpPair].value);
        assert forall pair | pair in before :: before[pair] != copyCount;
        copy.tpPairToMatchNum := copy.tpPairToMatchNum[tpPair := copyCount];
      }
    }
  }

  /** The events of a schedule that are meant for clone i. */
  function For(schedule: seq<(nat, Event)>, i: nat): seq<Event> {
    if schedule == [] then []
    else
      var rest := For(schedule[..|schedule| - 1], i);
      var (target, e) := schedule[|schedule| - 1];
      if target == i then rest + [e] else rest
  }

  /** A clone's events are those that the schedule names for it, as often as it does. */
  lemma {:induction false} ForHolds(schedule: seq<(nat, Event)>, i: nat, e: Event)
    ensures multiset(For(schedule, i))[e] == multiset(schedule)[(i, e)]
  {
    if schedule != [] {
      var prefix, last := schedule[..|schedule| - 1], schedule[|schedule| - 1];
      ForHolds(prefix, i, e);
      assert schedule == prefix + [last];
      var mine := For(prefix, i);
      assert For(schedule, i) == if last.0 == i then mine + [last.1] else mine;
      assert multiset(schedule)[(i, e)] == multiset(prefix)[(i, e)] + if last == (i, e) then 1 else 0;
      assert multiset(mine + [last.1])[e] == multiset(mine)[e] + if last.1 == e then 1 else 0;
    }
  }

  ghost predicate Separate(a: PreFilterState, b: PreFilterState)
    reads a, b
  {
    a.tpPairToMatchNum.Values !! b.tpPairToMatchNum.Values
  }

  /** Clones made for dry runs are independent of the original and of each other. */
  ghost predicate Apart(original: PreFilterState, clones: seq<PreFilterState>)
    reads original, clones
  {
    && original.Valid()
    && (forall i | 0 <= i < |clones| :: clones[i].Valid() && clones[i].constraint == original.constraint)
    && (forall i | 0 <= i < |clones| :: Separate(clones[i], original))
    && (forall i, j | 0 <= i < j < |clones| :: Separate(clones[i], clones[j]))
  }

  method AddClone(original: PreFilterState, clones: seq<PreFilterState>) returns (clone: PreFilterState)
    requires Apart(original, clones)
    ensures fresh(clone) && fresh(clone.tpPairToMatchNum.Values)
    ensures Apart(original, clones + [clone]) && clone.Counts() == original.Counts()
  {
    clone := original.Clone();
    assert Separate(clone, original);
    assert forall i | 0 <= i < |clones| :: Separate(clones[i], clone);
  }

  method Clones(original: PreFilterState, n: nat) returns (clones: seq<PreFilterState>)
    requires original.Valid()
    ensures |clones| == n && Apart(original, clones)
    ensures forall i | 0 <= i < n :: fresh(clones[i].tpPairToMatchNum.Values)
    ensures forall i | 0 <= i < n :: clones[i].Counts() == original.Counts()
  {
    clones := [];
    while |clones| < n
      invariant |clones| <= n && Apart(original, clones)
      invariant forall i | 0 <= i < |clones| :: fresh(clones[i]) && fresh(clones[i].tpPairToMatchNum.Values)
      invariant forall i | 0 <= i < |clones| :: clones[i].Counts() == original.Counts()
    {
      var clone := AddClone(original, clones);
      clones := clones + [clone];
    }
  }

  /** Every clone has seen exactly the updates of the schedule that were meant for it. */
  ghost predicate Tracks(c: Constraint, ns: string, start: Counts, schedule: seq<(nat, Event)>,
                         clones: seq<PreFilterState>)
    reads clones, set i, p | 0 <= i < |clones| && p in clones[i].tpPairToMatchNum :: clones[i].tpPairToMatchNum[p]
  {
    forall i | 0 <= i < |clones| ::
      NoFaults(c, ns, start.Keys, For(schedule, i)) && clones[i].Counts() == Apply(c, ns, start, For(schedule, i))
  }

  lemma ForStep(c: Constraint, ns: string, start: Counts, schedule: seq<(nat, Event)>, i: nat, entry: (nat, Event))
    requires NoFaults(c, ns, start.Keys, For(schedule, i))
    requires !Faults(c, ns, start.Keys, entry.1.pod, entry.1.node)
    ensures entry.0 != i ==> For(schedule + [entry], i) == For(schedule, i)
    ensures NoFaults(c, ns, start.Keys, For(schedule + [entry], i))
    ensures entry.0 == i ==>
      Apply(c, ns, start, For(schedule + [entry], i))
      == Updated(c, ns, Apply(c, ns, start, For(schedule, i)), entry.1.pod, entry.1.node, Delta(entry.1))
  {
    assert (schedule + [entry])[..|schedule|] == schedule;
    assert (For(schedule, i) + [entry.1])[..|For(schedule, i)|] == For(schedule, i);
  }

  /** An update of one clone is seen by that clone alone. */
  method UpdateOne(original: PreFilterState, clones: seq<PreFilterState>, target: nat, e: Event, preemptorPod: Pod)
    requires target < |clones| && Apart(original, clones)
    requires !Faults(original.constraint, preemptorPod.namespace, clones[target].Counts().Keys, e.pod, e.node)
    modifies clones[target].tpPairToMatchNum.Values
    ensures Apart(original, clones) && original.Counts() == old(original.Counts())
    ensures forall i | 0 <= i < |clones| :: clones[i].tpPairToMatchNum == old(clones[i].tpPairToMatchNum)
    ensures forall i | 0 <= i < |clones| && i != target :: clones[i].Counts() == old(clones[i].Counts())
    ensures clones[target].Counts() == Updated(original.constraint, preemptorPod.namespace,
                                               old(clones[target].Counts()), e.pod, e.node, Delta(e))
  {
    var fault := clones[target].UpdateWithPod(e.pod, preemptorPod, e.node, Delta(e));
  }

  method DryRunStep(original: PreFilterState, clones: seq<PreFilterState>, preemptorPod: Pod,
                    ghost start: Counts, ghost schedule: seq<(nat, Event)>, entry: (nat, Event))
    requires entry.0 < |clones| && Apart(original, clones)
    requires Tracks(original.constraint, preemptorPod.namespace, start, schedule, clones)
    requires !Faults(original.constraint, preemptorPod.namespace, start.Keys, entry.1.pod, entry.1.node)
    modifies clones[entry.0].tpPairToMatchNum.Values
    ensures Apart(original, clones) && original.Counts() == old(original.Counts())
    ensures forall i | 0 <= i < |clones| :: clones[i].tpPairToMatchNum == old(clones[i].tpPairToMatchNum)
    ensures Tracks(original.constraint, preemptorPod.namespace, start, schedule + [entry], clones)
  {
    forall i | 0 <= i < |clones| {
      ForStep(original.constraint, preemptorPod.namespace, start, schedule, i, entry);
    }
    UpdateOne(original, clones, entry.0, entry.1, preemptorPod);
  }

  /** Any interleaving of updates on any number of clones leaves the original and the other clones alone. */
  method DryRuns(original: PreFilterState, preemptorPod: Pod, n: nat, schedule: seq<(nat, Event)>)
    returns (clones: seq<PreFilterState>)
    requires original.Valid()
    requires forall entry | entry in schedule :: entry.0 < n
    requires forall entry | entry in schedule ::
      !Faults(original.constraint, preemptorPod.namespace, original.Counts().Keys, entry.1.pod, entry.1.node)
    ensures original.Counts() == old(original.Counts())
    ensures |clones| == n && Apart(original, clones)
    ensures Tracks(original.constraint, preemptorPod.namespace, original.Counts(), schedule, clones)
  {
    ghost var c, ns, start := original.constraint, preemptorPod.namespace, original.Counts();
    clones := Clones(original, n);
    for k := 0 to |schedule|
      invariant Apart(original, clones) && original.Counts() == start
      invariant forall i | 0 <= i < n :: fresh(clones[i].tpPairToMatchNum.Values)
      invariant Tracks(c, ns, start, schedule[..k], clones)
    {
      assert schedule[..k + 1] == schedule[..k] + [schedule[k]];
      assert schedule[k] in schedule;
      DryRunStep(original, clones, preemptorPod, start, schedule[..k], schedule[k]);
    }
    assert schedule[..|schedule|] == schedule;
  }
}
