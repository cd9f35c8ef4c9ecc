/** Both controllers and the users taking turns in any order: how much the controllers can move in all. */
module Interleaving {
  import opened Cluster
  import opened Seqs
  import opened Descheduler
  import opened Snapshots
  import opened Admission
  import opened Convergence

  /** A scheduling cycle, a pass of the strategy, or a pod that somebody else removes. */
  datatype Step = Admit(move: Move) | Evict(log: seq<Attempt>) | Delete(pod: Pod)

  function Next(cl: ClusterState, step: Step): ClusterState {
    match step
    case Admit(m) => Place(cl, m)
    case Evict(log) => AfterPass(cl, log)
    case Delete(p) => Without(cl, {p})
  }

  ghost predicate Possible(env: Env, cl: ClusterState, step: Step)
    requires env.Usable()
  {
    match step
    case Admit(m) => Admitted(env, cl, m)
    case Evict(log) => PassOn(env, cl, log)
    case Delete(p) => p in cl.pods
  }

  function After(cl: ClusterState, steps: seq<Step>): ClusterState {
    if steps == [] then cl else Next(After(cl, steps[..|steps| - 1]), steps[|steps| - 1])
  }

  /** Each step is possible on the cluster that the ones before have left; any eviction may have failed. */
  ghost predicate Run(env: Env, cl: ClusterState, steps: seq<Step>)
    requires env.Usable()
  {
    steps != [] ==>
      Run(env, cl, steps[..|steps| - 1]) && Possible(env, After(cl, steps[..|steps| - 1]), steps[|steps| - 1])
  }

  /** A count of pods, by what happens to them. */
  datatype Books = Books(fills: nat, overs: nat, strayOvers: nat, evictions: nat, vacated: nat, trimmed: nat) {
    function Plus(that: Books): Books {
      Books(fills + that.fills, overs + that.overs, strayOvers + that.strayOvers, evictions + that.evictions,
            vacated + that.vacated, trimmed + that.trimmed)
    }
  }

  function Bit(b: bool): nat { if b then 1 else 0 }

  /** The pod counts on a value that has no more pods than it should. */
  predicate Needed(env: Env, cl: ClusterState, p: Pod)
    requires env.Usable()
  {
    && Accounted(env, cl, p)
    && var v := DomainOf(NodeMapOf(cl.nodes)[p.nodeName], env.Key());
       Cnt(env, cl, v) <= Desired(env.C(), v)
  }

  /**
   What one step enters: pods that fill a gap when admitted, pods admitted to a value that was not short
   (and the stray ones among them), pods evicted, pods removed that were needed, and pods removed that
   were not.
   */
  function Entry(env: Env, cl: ClusterState, step: Step): Books
    requires env.Usable()
  {
    match step
    case Admit(m) =>
      var counted := Selected(env.C(), env.ref.namespace, m.pod);
      var short := IsShort(env, cl, DomainOf(m.node, env.Key()));
      Books(Bit(counted && short), Bit(counted && !short), Bit(Stray(env, m.pod) && !short), 0, 0, 0)
    case Evict(log) => Books(0, 0, 0, |Evicted(log)|, 0, 0)
    case Delete(p) => Books(0, 0, 0, 0, Bit(Needed(env, cl, p)), Bit(Accounted(env, cl, p) && !Needed(env, cl, p)))
  }

  function Entries(env: Env, cl: ClusterState, steps: seq<Step>): Books
    requires env.Usable()
  {
    if steps == [] then Books(0, 0, 0, 0, 0, 0)
    else
      var prefix := steps[..|steps| - 1];
      Entries(env, cl, prefix).Plus(Entry(env, After(cl, prefix), steps[|steps| - 1]))
  }

  lemma StepProper(env: Env, cl: ClusterState, step: Step)
    requires Proper(env, cl) && Possible(env, cl, step) && |cl.pods| < MAX_INT32
    ensures Proper(env, Next(cl, step)) && |Next(cl, step).pods| <= |cl.pods| + 1
  {
    match step
    case Admit(_) =>
    case Evict(log) => WithoutProper(env, cl, Evicted(log));
    case Delete(p) => WithoutProper(env, cl, {p});
  }

  lemma {:induction false} RunProper(env: Env, cl: ClusterState, steps: seq<Step>)
    requires Proper(env, cl) && Run(env, cl, steps) && |cl.pods| + |steps| <= MAX_INT32
    ensures Proper(env, After(cl, steps)) && |After(cl, steps).pods| <= |cl.pods| + |steps|
  {
    if steps != [] {
      RunProper(env, cl, steps[..|steps| - 1]);
      StepProper(env, After(cl, steps[..|steps| - 1]), steps[|steps| - 1]);
    }
  }

  /** The excess moves with the pods there are and the pods missing. */
  lemma ExcessMoves(env: Env, cl: ClusterState, cl': ClusterState)
    requires Proper(env, cl) && Proper(env, cl')
    ensures TotalExcess(env, cl') - TotalExcess(env, cl)
         == |Everyone(env, cl')| + Deficit(env, cl') - |Everyone(env, cl)| - Deficit(env, cl)
  {
    assert Replicas(env, cl) == Replicas(env, cl');
    PodsBalance(env, cl);
    PodsBalance(env, cl');
  }

  lemma AdmitDeficit(env: Env, cl: ClusterState, m: Move)
    requires Sound(env, cl) && Admitted(env, cl, m)
    ensures Deficit(env, Place(cl, m)) == Deficit(env, cl) - Entry(env, cl, Admit(m)).fills
  {
    DeficitPlaced(env, cl, m, env.Policy().Keys);
  }

  lemma PassDeficit(env: Env, cl: ClusterState, log: seq<Attempt>)
    requires Proper(env, cl) && PassOn(env, cl, log)
    ensures Deficit(env, AfterPass(cl, log)) == Deficit(env, cl)
  {
    forall v ensures Short(env, AfterPass(cl, log), v) == Short(env, cl, v) {
      EvictionBounds(env, cl, log, v);
    }
    assert Shortages(env, AfterPass(cl, log), env.Policy().Keys) == Shortages(env, cl, env.Policy().Keys);
  }

  lemma DeleteCounts(env: Env, cl: ClusterState, p: Pod, v: string)
    requires Proper(env, cl) && p in cl.pods
    ensures Cnt(env, cl, v) == Cnt(env, Without(cl, {p}), v)
      + Bit(Accounted(env, cl, p) && DomainOf(NodeMapOf(cl.nodes)[p.nodeName], env.Key()) == v)
  {
    var members := Members(env.C(), env.ref.namespace, cl, v);
    CntWithout(env, cl, {p}, v);
    MembersAre(env.C(), env.ref.namespace, cl, v, p);
    assert Common(members, {p}) == if p in members then {p} else {};
  }

  lemma DeleteDeficit(env: Env, cl: ClusterState, p: Pod)
    requires Proper(env, cl) && p in cl.pods
    ensures Deficit(env, Without(cl, {p})) == Deficit(env, cl) + Bit(Needed(env, cl, p))
  {
    var cl' := Without(cl, {p});
    forall v {
      DeleteCounts(env, cl, p, v);
    }
    if Accounted(env, cl, p) {
      DeficitStep(env, cl', cl, DomainOf(NodeMapOf(cl.nodes)[p.nodeName], env.Key()), env.Policy().Keys);
    } else {
      assert Shortages(env, cl', env.Policy().Keys) == Shortages(env, cl, env.Policy().Keys);
    }
  }

  lemma DeleteEveryone(env: Env, cl: ClusterState, p: Pod)
    requires Proper(env, cl) && p in cl.pods
    ensures |Everyone(env, Without(cl, {p}))| == |Everyone(env, cl)| - Bit(Accounted(env, cl, p))
  {
    EveryoneWithout(env, cl, {p});
    WhereMember(SelectedBy(env.C(), env.ref.namespace), cl.pods, p);
    WhereMember(LiveKnown(NodeMapOf(cl.nodes)), Listing(env.C(), env.ref.namespace, cl.pods), p);
    assert Common(Everyone(env, cl), {p}) == if p in Everyone(env, cl) then {p} else {};
  }

  lemma StepDeficit(env: Env, cl: ClusterState, step: Step)
    requires Proper(env, cl) && Possible(env, cl, step)
    ensures var entry := Entry(env, cl, step);
            Deficit(env, Next(cl, step)) + entry.fills == Deficit(env, cl) + entry.vacated
  {
    match step
    case Admit(m) => AdmitDeficit(env, cl, m);
    case Evict(log) => PassDeficit(env, cl, log);
    case Delete(p) => DeleteDeficit(env, cl, p);
  }

  lemma StepEveryone(env: Env, cl: ClusterState, step: Step)
    requires Proper(env, cl) && Possible(env, cl, step)
    ensures var entry := Entry(env, cl, step);
            |Everyone(env, Next(cl, step))| + entry.evictions + entry.vacated + entry.trimmed
            == |Everyone(env, cl)| + entry.fills + entry.overs
  {
    match step
    case Admit(m) => EveryoneMove(env, cl, m);
    case Evict(log) => EveryoneAfter(env, cl, log);
    case Delete(p) => DeleteEveryone(env, cl, p);
  }

  lemma StepExcess(env: Env, cl: ClusterState, step: Step)
    requires Proper(env, cl) && Possible(env, cl, step) && |cl.pods| < MAX_INT32
    ensures var entry := Entry(env, cl, step);
            TotalExcess(env, Next(cl, step)) + entry.evictions + entry.trimmed == TotalExcess(env, cl) + entry.overs
  {
    StepProper(env, cl, step);
    StepDeficit(env, cl, step);
    StepEveryone(env, cl, step);
    ExcessMoves(env, cl, Next(cl, step));
  }

  /**
   The two books of any interleaving, with any evictions failing. What is missing goes down by one for each
   pod that fills a gap and up by one for each needed pod that is removed, and the passes never touch it.
   What is too many goes down by one for each eviction and each removal of such a pod, and up by one for
   each pod let through to a value that was not short.
   */
  lemma {:induction false} BooksBalance(env: Env, cl: ClusterState, steps: seq<Step>)
    requires Proper(env, cl) && Run(env, cl, steps) && |cl.pods| + |steps| <= MAX_INT32
    ensures var books := Entries(env, cl, steps);
            && Deficit(env, After(cl, steps)) + books.fills == Deficit(env, cl) + books.vacated
            && TotalExcess(env, After(cl, steps)) + books.evictions + books.trimmed
               == TotalExcess(env, cl) + books.overs
  {
    if steps != [] {
      var prefix, step := steps[..|steps| - 1], steps[|steps| - 1];
      BooksBalance(env, cl, prefix);
      RunProper(env, cl, prefix);
      StepDeficit(env, After(cl, prefix), step);
      StepExcess(env, After(cl, prefix), step);
    }
  }

  /** Once reached, a policy stays reached until pods are removed, and no pass evicts anything. */
  lemma StaysReached(env: Env, cl: ClusterState, step: Step)
    requires Proper(env, cl) && Possible(env, cl, step) && Reached(env, cl)
    ensures Entry(env, cl, step).evictions == 0
    ensures !step.Delete? ==> Reached(env, Next(cl, step))
  {
    match step
    case Admit(m) => MoveCounts(env, cl, m);
    case Evict(log) => SettledIsQuiet(env, cl); NothingEvicted(env, cl, log);
    case Delete(_) =>
  }

  /** While the policy is unreached, only stray pods go to values that are not short. */
  lemma OversAreStray(env: Env, cl: ClusterState, step: Step)
    requires Proper(env, cl) && Possible(env, cl, step) && !Reached(env, cl)
    ensures Entry(env, cl, step).overs == Entry(env, cl, step).strayOvers
  {
    if step.Admit? && Governed(env, step.move.pod) {
      AdmittedWhereShort(env, cl, step.move);
    }
  }

  ghost predicate NoDeletions(steps: seq<Step>) { forall s | s in steps :: !s.Delete? }

  /**
   The controllers wear each other out: as long as nobody else removes pods, no more pods are ever evicted
   than were too many at the start or came as stray pods to values that were not short. The pods of the
   policy itself that Filter lets through, under quota or in overflow, never cost an eviction.
   */
  lemma {:induction false} EvictionsAreBounded(env: Env, cl: ClusterState, steps: seq<Step>)
    requires Proper(env, cl) && Run(env, cl, steps) && |cl.pods| + |steps| <= MAX_INT32 && NoDeletions(steps)
    ensures var books := Entries(env, cl, steps);
            && books.evictions <= TotalExcess(env, cl) + books.strayOvers
            && (!Reached(env, After(cl, steps)) ==> books.overs == books.strayOvers)
  {
    if steps != [] {
      var prefix, step := steps[..|steps| - 1], steps[|steps| - 1];
      var mid := After(cl, prefix);
      assert step in steps && forall s | s in prefix :: s in steps;
      EvictionsAreBounded(env, cl, prefix);
      RunProper(env, cl, prefix);
      if Reached(env, mid) {
        StaysReached(env, mid, step);
      } else {
        OversAreStray(env, mid, step);
        BooksBalance(env, cl, steps);
      }
    }
  }
}
