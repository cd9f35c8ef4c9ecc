/** Both controllers together: evictions and admissions neither fight nor miss the policy. */
module Convergence {
  import opened Cluster
  import opened Seqs
  import opened EvictionOrder
  import opened Descheduler
  import opened Snapshots
  import TopologyScheduling
  import opened Admission

  /** No number of replicas is negative either; with one that is, the strategy may panic. */
  predicate Proper(env: Env, cl: ClusterState) {
    Sound(env, cl) && forall v | v in env.Policy() :: env.Policy()[v] >= 0
  }

  /** The int32 difference between replicas and pods cannot wrap, which allows for most negative replicas. */
  predicate Unwrapped(env: Env, cl: ClusterState) {
    Sound(env, cl) && forall v | v in env.Policy() :: env.Policy()[v] >= MIN_INT32 + |cl.pods|
  }

  /** What one run of the strategy on this policy attempts in this cluster. */
  ghost predicate PassOn(env: Env, cl: ClusterState, log: seq<Attempt>)
    requires env.Usable()
  {
    Outcome(env.C(), NodeMapOf(cl.nodes), Listing(env.C(), env.ref.namespace, cl.pods), log, false)
  }

  ghost predicate ReachedOn(env: Env, cl: ClusterState)
    requires env.Usable()
  {
    TopoReached(env.C(), NodeMapOf(cl.nodes), Listing(env.C(), env.ref.namespace, cl.pods))
  }

  /** Some value that has pods has too few of them. */
  ghost predicate ObservedShort(env: Env, cl: ClusterState)
    requires env.Usable()
  {
    exists v :: 0 < Cnt(env, cl, v) < Desired(env.C(), v)
  }

  function Attempted(env: Env, cl: ClusterState, log: seq<Attempt>, v: string): seq<Pod>
    requires env.Usable()
  {
    AttemptedOn(env.Key(), NodeMapOf(cl.nodes), log, v)
  }

  /** How many pods of v an acting pass attempts. */
  function Excess(env: Env, cl: ClusterState, v: string): nat
    requires env.Usable()
  {
    if Cnt(env, cl, v) > Desired(env.C(), v) >= 0 then Cnt(env, cl, v) - Desired(env.C(), v) else 0
  }

  lemma DesiredIsNatural(env: Env, cl: ClusterState, v: string)
    requires Proper(env, cl)
    ensures Desired(env.C(), v) >= 0
  {
    assert v in env.Policy() ==> env.Policy()[v] >= 0;
  }

  lemma PlainDiff(env: Env, cl: ClusterState, v: string)
    requires Unwrapped(env, cl)
    ensures Wrap(Cnt(env, cl, v)) == Cnt(env, cl, v)
    ensures Diff(env.C(), v, Cnt(env, cl, v)) == Desired(env.C(), v) - Cnt(env, cl, v)
  {
    CntFits(env, cl, v);
    assert v in env.Policy() ==> env.Policy()[v] >= MIN_INT32 + |cl.pods|;
  }

  lemma DiffIsPlain(env: Env, cl: ClusterState, v: string)
    requires Proper(env, cl)
    ensures Wrap(Cnt(env, cl, v)) == Cnt(env, cl, v)
    ensures ToDelete(env.C(), v, Cnt(env, cl, v)) == Excess(env, cl, v)
  {
    CntFits(env, cl, v);
    DesiredIsNatural(env, cl, v);
    ToDeleteMeaning(env.C(), v, Cnt(env, cl, v));
  }

  lemma ReachedIffNoneShort(env: Env, cl: ClusterState)
    requires Unwrapped(env, cl)
    ensures ReachedOn(env, cl) <==> !ObservedShort(env, cl)
  {
    forall v {
      PlainDiff(env, cl, v);
    }
    if ReachedOn(env, cl) {
      forall v ensures !(0 < Cnt(env, cl, v) < Desired(env.C(), v)) {
        assert Members(env.C(), env.ref.namespace, cl, v) != [] ==> Diff(env.C(), v, Wrap(Cnt(env, cl, v))) <= 0;
      }
    }
  }

  /** With replica numbers that are not negative the strategy never panics. */
  lemma NeverCrashes(env: Env, cl: ClusterState)
    requires Proper(env, cl)
    ensures !Crashes(env.C(), NodeMapOf(cl.nodes), Listing(env.C(), env.ref.namespace, cl.pods))
  {
    forall v {
      DesiredIsNatural(env, cl, v);
    }
    CrashesIff(env.C(), NodeMapOf(cl.nodes), Listing(env.C(), env.ref.namespace, cl.pods));
  }

  lemma AttemptedSize(env: Env, cl: ClusterState, log: seq<Attempt>, v: string)
    requires Proper(env, cl) && PassOn(env, cl, log)
    ensures FirstOf(Members(env.C(), env.ref.namespace, cl, v),
                    if ObservedShort(env, cl) then Excess(env, cl, v) else 0, Attempted(env, cl, log, v))
    ensures |Attempted(env, cl, log, v)| == if ObservedShort(env, cl) then Excess(env, cl, v) else 0
  {
    DiffIsPlain(env, cl, v);
    ReachedIffNoneShort(env, cl);
  }

  lemma AttemptedAre(env: Env, cl: ClusterState, log: seq<Attempt>, v: string, p: Pod)
    requires env.Usable()
    ensures p in Attempted(env, cl, log, v) <==>
      OnDomain(env.Key(), NodeMapOf(cl.nodes), v)(p) && exists i :: 0 <= i < |log| && log[i].pod == p
  {
    WhereMember(OnDomain(env.Key(), NodeMapOf(cl.nodes), v), PodsOf(log), p);
    if i :| 0 <= i < |log| && log[i].pod == p {
      assert PodsOf(log)[i] == p;
    }
  }

  ghost function SurplusOn(env: Env, cl: ClusterState, v: string): nat
    requires env.Usable()
  {
    Surplus(env.C(), NodeMapOf(cl.nodes), Listing(env.C(), env.ref.namespace, cl.pods), v)
  }

  /** Every attempt is on some value, so a pass without a surplus on any value is empty. */
  lemma NoSurplusNoAttempt(env: Env, cl: ClusterState, log: seq<Attempt>)
    requires env.Usable() && PassOn(env, cl, log) && forall v :: SurplusOn(env, cl, v) == 0
    ensures log == []
  {
    if log != [] {
      var p := log[0].pod;
      assert log[0] in log;
      var v := DomainOf(NodeMapOf(cl.nodes)[p.nodeName], env.Key());
      assert SurplusOn(env, cl, v) == 0;
      AttemptedAre(env, cl, log, v, p);
    }
  }

  lemma NothingAttempted(env: Env, cl: ClusterState, log: seq<Attempt>)
    requires Proper(env, cl) && PassOn(env, cl, log)
    requires !ObservedShort(env, cl) || forall v :: Excess(env, cl, v) == 0
    ensures log == []
  {
    ReachedIffNoneShort(env, cl);
    forall v ensures SurplusOn(env, cl, v) == 0 {
      DiffIsPlain(env, cl, v);
    }
    NoSurplusNoAttempt(env, cl, log);
  }

  /** A pass attempts something if and only if some value with pods is short and some value has too many. */
  lemma ActsIff(env: Env, cl: ClusterState, log: seq<Attempt>)
    requires Proper(env, cl) && PassOn(env, cl, log)
    ensures log != [] <==> ObservedShort(env, cl) && exists v :: Cnt(env, cl, v) > Desired(env.C(), v)
  {
    if v :| ObservedShort(env, cl) && Cnt(env, cl, v) > Desired(env.C(), v) {
      DesiredIsNatural(env, cl, v);
      AttemptedSize(env, cl, log, v);
      AttemptedAre(env, cl, log, v, Attempted(env, cl, log, v)[0]);
    } else {
      NothingAttempted(env, cl, log);
    }
  }

  function Evicted(log: seq<Attempt>): set<Pod> {
    set a | a in log && a.evicted :: a.pod
  }

  predicate AllEvicted(log: seq<Attempt>) {
    forall a | a in log :: a.evicted
  }

  function Without(cl: ClusterState, gone: set<Pod>): ClusterState {
    cl.(pods := Where(Outside(gone), cl.pods))
  }

  function AfterPass(cl: ClusterState, log: seq<Attempt>): ClusterState {
    Without(cl, Evicted(log))
  }

  lemma CntWithout(env: Env, cl: ClusterState, gone: set<Pod>, v: string)
    requires Sound(env, cl)
    ensures Cnt(env, Without(cl, gone), v)
         == Cnt(env, cl, v) - |Common(Members(env.C(), env.ref.namespace, cl, v), gone)|
  {
    WhereCommute(SelectedBy(env.C(), env.ref.namespace), Outside(gone), cl.pods);
    WhereCommute(LiveOn(env.Key(), NodeMapOf(cl.nodes), v), Outside(gone),
                 Listing(env.C(), env.ref.namespace, cl.pods));
    MembersDistinct(env.C(), env.ref.namespace, cl, v);
    OutsideSize(Members(env.C(), env.ref.namespace, cl, v), gone);
  }

  /** Every attempt is on a live governed pod of the value it is accounted to, and no pod is attempted twice. */
  lemma AttemptsAreMembers(env: Env, cl: ClusterState, log: seq<Attempt>, v: string)
    requires Proper(env, cl) && PassOn(env, cl, log)
    ensures Distinct(Attempted(env, cl, log, v))
    ensures forall p | p in Attempted(env, cl, log, v) :: p in Members(env.C(), env.ref.namespace, cl, v)
  {
    var members, ev := Members(env.C(), env.ref.namespace, cl, v), Attempted(env, cl, log, v);
    AttemptedSize(env, cl, log, v);
    MembersDistinct(env.C(), env.ref.namespace, cl, v);
    if ev != [] {
      var s: seq<Pod> :| multiset(s) == multiset(members) && |ev| <= |s| && ev == s[..|ev|];
      DistinctPermutation(members, s);
      forall p | p in ev ensures p in members {
        FirstOfMember(members, |ev|, ev, p);
      }
    }
  }

  lemma AttemptsAreDistinct(env: Env, cl: ClusterState, log: seq<Attempt>)
    requires Proper(env, cl) && PassOn(env, cl, log)
    ensures Distinct(PodsOf(log))
  {
    forall p ensures multiset(PodsOf(log))[p] <= 1 {
      if p in multiset(PodsOf(log)) {
        var i :| 0 <= i < |log| && log[i].pod == p;
        assert log[i] in log;
        var v := DomainOf(NodeMapOf(cl.nodes)[p.nodeName], env.Key());
        AttemptsAreMembers(env, cl, log, v);
        DistinctOnce(Attempted(env, cl, log, v));
        WhereOccurrences(OnDomain(env.Key(), NodeMapOf(cl.nodes), v), PodsOf(log), p);
      }
    }
    DistinctOnce(PodsOf(log));
  }

  /** The pods of v that are gone afterwards. */
  lemma GoneFrom(env: Env, cl: ClusterState, log: seq<Attempt>, v: string)
    requires Proper(env, cl) && PassOn(env, cl, log)
    ensures var gone := Common(Members(env.C(), env.ref.namespace, cl, v), Evicted(log));
            && |gone| <= |Attempted(env, cl, log, v)|
            && (AllEvicted(log) ==> |gone| == |Attempted(env, cl, log, v)|)
  {
    var members, ev := Members(env.C(), env.ref.namespace, cl, v), Attempted(env, cl, log, v);
    var gone, tried := Common(members, Evicted(log)), set p | p in ev;
    forall p | p in gone ensures p in tried {
      var a :| a in log && a.evicted && a.pod == p;
      MembersAre(env.C(), env.ref.namespace, cl, v, p);
      AttemptedAre(env, cl, log, v, p);
    }
    SubsetSize(gone, tried);
    ElementsAtMost(ev);
    AttemptsAreMembers(env, cl, log, v);
    if AllEvicted(log) {
      forall p | p in tried ensures p in gone {
        AttemptedAre(env, cl, log, v, p);
        var i :| 0 <= i < |log| && log[i].pod == p;
        assert log[i] in log;
      }
      assert gone == tried;
      DistinctSize(ev);
    }
  }

  function Min(a: int, b: int): int { if a < b then a else b }

  /**
   Evictions never undershoot: whichever of them succeed, every value keeps at least the smaller of what
   it had and what it should have; when all succeed an acting pass leaves exactly that.
   */
  lemma EvictionBounds(env: Env, cl: ClusterState, log: seq<Attempt>, v: string)
    requires Proper(env, cl) && PassOn(env, cl, log)
    ensures Min(Cnt(env, cl, v), Desired(env.C(), v)) <= Cnt(env, AfterPass(cl, log), v) <= Cnt(env, cl, v)
    ensures !ObservedShort(env, cl) ==> Cnt(env, AfterPass(cl, log), v) == Cnt(env, cl, v)
    ensures ObservedShort(env, cl) && AllEvicted(log) ==>
      Cnt(env, AfterPass(cl, log), v) == Min(Cnt(env, cl, v), Desired(env.C(), v))
  {
    CntWithout(env, cl, Evicted(log), v);
    GoneFrom(env, cl, log, v);
    AttemptedSize(env, cl, log, v);
    DesiredIsNatural(env, cl, v);
  }

  lemma AttemptedBefore(env: Env, cl: ClusterState, log: seq<Attempt>, v: string, p: Pod, q: Pod)
    requires Proper(env, cl) && PassOn(env, cl, log)
    requires p in Attempted(env, cl, log, v)
    requires q in Members(env.C(), env.ref.namespace, cl, v) && q !in Attempted(env, cl, log, v)
    ensures p in Members(env.C(), env.ref.namespace, cl, v) && Before(p, q)
  {
    var members, ev := Members(env.C(), env.ref.namespace, cl, v), Attempted(env, cl, log, v);
    AttemptedSize(env, cl, log, v);
    AttemptsAreMembers(env, cl, log, v);
    var s: seq<Pod> :| multiset(s) == multiset(members) && Sorted(s) && |ev| <= |s| && ev == s[..|ev|];
    assert q in multiset(s);
    assert forall k | 0 <= k < |ev| :: s[k] in ev;
    var i :| 0 <= i < |ev| && ev[i] == p;
    var j :| 0 <= j < |s| && s[j] == q;
    assert Before(s[i], s[j]);
  }

  /**
   Of two pods of one value, the attempted one is Less than the spared one: it is Failed, Succeeded or
   Pending if the spared one is, and if it is not, the first letter in which their names differ is smaller
   in its own, or its name is the beginning of the other.
   */
  lemma EvictionPreference(env: Env, cl: ClusterState, log: seq<Attempt>, v: string, p: Pod, q: Pod)
    requires Proper(env, cl) && PassOn(env, cl, log)
    requires p in Attempted(env, cl, log, v)
    requires q in Members(env.C(), env.ref.namespace, cl, v) && q !in Attempted(env, cl, log, v)
    ensures Less(p, q)
    ensures q.phase in {Failed, Succeeded, Pending} ==> p.phase in {Failed, Succeeded, Pending}
    ensures p.phase !in {Failed, Succeeded, Pending} ==>
      var a, b := p.name, q.name;
      exists k :: 0 <= k <= |a| && k <= |b| && a[..k] == b[..k]
               && (k == |a| < |b| || (k < |a| && k < |b| && a[k] < b[k]))
  {
    AttemptedBefore(env, cl, log, v, p, q);
    MembersAre(env.C(), env.ref.namespace, cl, v, p);
    MembersAre(env.C(), env.ref.namespace, cl, v, q);
    assert p != q;
    BeforeIsLess(p, q);
    LessMeans(p, q);
  }

  /** Neither controller has a reason to undo the other's work. */
  ghost predicate Settled(env: Env, cl: ClusterState)
    requires env.Usable()
  {
    Reached(env, cl) || forall v :: Cnt(env, cl, v) > 0 ==> Cnt(env, cl, v) <= Desired(env.C(), v)
  }

  lemma ReachedIsNotShort(env: Env, cl: ClusterState)
    requires env.Usable()
    ensures Reached(env, cl) ==> !ObservedShort(env, cl)
  {
    if Reached(env, cl) {
      forall v ensures !(0 < Cnt(env, cl, v) < Desired(env.C(), v)) {
        assert v in env.Policy() ==> Cnt(env, cl, v) >= env.Policy()[v];
      }
    }
  }

  lemma SettledNoSurplus(env: Env, cl: ClusterState, v: string)
    requires Unwrapped(env, cl) && Settled(env, cl)
    ensures SurplusOn(env, cl, v) == 0
  {
    PlainDiff(env, cl, v);
    ReachedIsNotShort(env, cl);
    ReachedIffNoneShort(env, cl);
  }

  /** A settled cluster is left alone: the strategy does not panic, and it attempts nothing. */
  lemma SettledIsQuiet(env: Env, cl: ClusterState)
    requires Unwrapped(env, cl) && Settled(env, cl)
    ensures !Crashes(env.C(), NodeMapOf(cl.nodes), Listing(env.C(), env.ref.namespace, cl.pods))
    ensures forall log | PassOn(env, cl, log) :: log == []
  {
    var nodeMap, listing := NodeMapOf(cl.nodes), Listing(env.C(), env.ref.namespace, cl.pods);
    forall v ensures Surplus(env.C(), nodeMap, listing, v) == 0 == SurplusOn(env, cl, v) {
      SettledNoSurplus(env, cl, v);
    }
    forall log | PassOn(env, cl, log) ensures log == [] {
      NoSurplusNoAttempt(env, cl, log);
    }
  }

  /** A value that may take one more pod without unsettling the cluster. */
  ghost predicate HasRoom(env: Env, cl: ClusterState, v: string)
    requires env.Usable()
  {
    Reached(env, cl) || Cnt(env, cl, v) < Desired(env.C(), v)
  }

  lemma PlacedOneMore(env: Env, cl: ClusterState, m: Move)
    requires env.Usable() && DistinctNodes(cl.nodes)
    requires m.node in cl.nodes && !m.pod.terminating && Selected(env.C(), env.ref.namespace, m.pod)
    ensures OneMore(env, cl, Place(cl, m), DomainOf(m.node, env.Key()))
  {
    forall w {
      PlaceCounts(env, cl, m, w);
    }
  }

  /** One more selected pod, checked by Filter or not, keeps a cluster settled if and only if its value has room. */
  lemma SettledStaysIff(env: Env, cl: ClusterState, m: Move)
    requires env.Usable() && DistinctNodes(cl.nodes) && Settled(env, cl)
    requires m.node in cl.nodes && !m.pod.terminating && Selected(env.C(), env.ref.namespace, m.pod)
    ensures Settled(env, Place(cl, m)) <==> HasRoom(env, cl, DomainOf(m.node, env.Key()))
  {
    var v, cl' := DomainOf(m.node, env.Key()), Place(cl, m);
    PlacedOneMore(env, cl, m);
    if !HasRoom(env, cl, v) {
      var u :| u in env.Policy() && Cnt(env, cl, u) < env.Policy()[u];
      assert Cnt(env, cl', u) < env.Policy()[u];
      assert Cnt(env, cl', v) > Desired(env.C(), v);
    }
  }

  lemma FullValueGrows(env: Env, cl: ClusterState, cl': ClusterState, v: string, log: seq<Attempt>)
    requires env.Usable() && OneMore(env, cl, cl', v) && Proper(env, cl') && PassOn(env, cl', log)
    requires Cnt(env, cl, v) >= Desired(env.C(), v)
    ensures log != [] <==> ObservedShort(env, cl)
  {
    ActsIff(env, cl', log);
    assert Cnt(env, cl', v) > Desired(env.C(), v);
    if ObservedShort(env, cl) {
      var w :| 0 < Cnt(env, cl, w) < Desired(env.C(), w);
      assert 0 < Cnt(env, cl', w) < Desired(env.C(), w);
    }
  }

  /**
   The fight, exactly: in a settled cluster one more selected pod makes the next pass attempt an eviction if
   and only if some value with pods is short and the pod's own value is not.
   */
  lemma FightIff(env: Env, cl: ClusterState, m: Move, log: seq<Attempt>)
    requires Proper(env, cl) && Settled(env, cl) && Proper(env, Place(cl, m)) && PassOn(env, Place(cl, m), log)
    requires m.node in cl.nodes && !m.pod.terminating && Selected(env.C(), env.ref.namespace, m.pod)
    ensures var v := DomainOf(m.node, env.Key());
            log != [] <==> ObservedShort(env, cl) && Cnt(env, cl, v) >= Desired(env.C(), v)
  {
    if HasRoom(env, cl, DomainOf(m.node, env.Key())) {
      SettledStaysIff(env, cl, m);
      SettledIsQuiet(env, Place(cl, m));
      ReachedIsNotShort(env, cl);
    } else {
      PlacedOneMore(env, cl, m);
      FullValueGrows(env, cl, Place(cl, m), DomainOf(m.node, env.Key()), log);
    }
  }

  lemma SettledStays(env: Env, cl: ClusterState, m: Move)
    requires Sound(env, cl) && Settled(env, cl) && Admitted(env, cl, m)
    requires Stray(env, m.pod) ==> HasRoom(env, cl, DomainOf(m.node, env.Key()))
    ensures Settled(env, Place(cl, m))
  {
    MoveCounts(env, cl, m);
    if Selected(env.C(), env.ref.namespace, m.pod) {
      if Governed(env, m.pod) && !Reached(env, cl) {
        AdmittedWhereShort(env, cl, m);
      }
      SettledStaysIff(env, cl, m);
    } else if Reached(env, cl) {
      assert Reached(env, Place(cl, m));
    }
  }

  /** Every stray pod of the run goes to a value that has room for it. */
  ghost predicate StraysHaveRoom(env: Env, cl: ClusterState, ms: seq<Move>)
    requires env.Usable()
  {
    ms != [] ==>
      var prefix, m := ms[..|ms| - 1], ms[|ms| - 1];
      && StraysHaveRoom(env, cl, prefix)
      && (Stray(env, m.pod) ==> HasRoom(env, PlaceAll(cl, prefix), DomainOf(m.node, env.Key())))
  }

  lemma {:induction false} SettledRun(env: Env, cl: ClusterState, ms: seq<Move>)
    requires Sound(env, cl) && Settled(env, cl) && AdmittedRun(env, cl, ms) && |cl.pods| + |ms| <= MAX_INT32
    requires StraysHaveRoom(env, cl, ms)
    ensures Settled(env, PlaceAll(cl, ms))
  {
    if ms != [] {
      SettledRun(env, cl, ms[..|ms| - 1]);
      RunSound(env, cl, ms[..|ms| - 1]);
      SettledStays(env, PlaceAll(cl, ms[..|ms| - 1]), ms[|ms| - 1]);
    }
  }

  /**
   The controllers never fight: whatever pods Filter has let through from an empty placement on, the
   strategy neither panics nor attempts anything, as long as pods that the policy counts but Filter does
   not hold against it went where there was room, and no difference can wrap.
   */
  lemma {:induction false} NeverFight(env: Env, cl: ClusterState, ms: seq<Move>)
    requires Sound(env, cl) && AdmittedRun(env, cl, ms) && |cl.pods| + |ms| <= MAX_INT32
    requires forall v | v in env.Policy() :: env.Policy()[v] >= MIN_INT32 + |cl.pods| + |ms|
    requires forall p | p in cl.pods :: !Selected(env.C(), env.ref.namespace, p)
    requires StraysHaveRoom(env, cl, ms)
    ensures var end := PlaceAll(cl, ms);
            && !Crashes(env.C(), NodeMapOf(end.nodes), Listing(env.C(), env.ref.namespace, end.pods))
            && forall log | PassOn(env, end, log) :: log == []
  {
    WhereNone(SelectedBy(env.C(), env.ref.namespace), cl.pods);
    assert forall v :: Cnt(env, cl, v) == 0;
    SettledRun(env, cl, ms);
    RunSound(env, cl, ms);
    SettledIsQuiet(env, PlaceAll(cl, ms));
  }

  lemma WithoutProper(env: Env, cl: ClusterState, gone: set<Pod>)
    requires Proper(env, cl)
    ensures Proper(env, Without(cl, gone))
  {
    KeepsDistinctPods(Outside(gone), cl.pods);
  }

  lemma {:induction false} KeepsDistinctPods(f: Pod -> bool, pods: seq<Pod>)
    requires DistinctPods(pods)
    ensures DistinctPods(Where(f, pods))
  {
    if pods != [] {
      var prefix, last := pods[..|pods| - 1], pods[|pods| - 1];
      KeepsDistinctPods(f, prefix);
      forall p | p in Where(f, prefix)
        ensures p.namespace != last.namespace || p.name != last.name
      {
        WhereMember(f, prefix, p);
      }
    }
  }

  /** A second pass after one whose evictions all succeeded attempts nothing. */
  lemma PassIsIdempotent(env: Env, cl: ClusterState, log: seq<Attempt>, again: seq<Attempt>)
    requires Proper(env, cl) && PassOn(env, cl, log) && AllEvicted(log)
    requires PassOn(env, AfterPass(cl, log), again)
    ensures again == []
  {
    WithoutProper(env, cl, Evicted(log));
    forall v {
      EvictionBounds(env, cl, log, v);
    }
    if ObservedShort(env, cl) {
      SettledIsQuiet(env, AfterPass(cl, log));
    } else {
      NothingAttempted(env, AfterPass(cl, log), again);
    }
  }

  /** The verdicts of the two controllers, when the pod's affinity keys every value of the policy. */
  lemma VerdictsRelated(env: Env, cl: ClusterState, affinity: Node -> bool)
    requires Proper(env, cl) && forall v | v in env.Policy() :: KeyedFor(env, cl, affinity, v)
    ensures TopologyScheduling.CheckPolicyRequirementReached(env.Key(), env.Policy(), ViewOf(env, cl, affinity).counts)
       <==> ReachedOn(env, cl) && forall v | v in env.Policy() && env.Policy()[v] > 0 :: Cnt(env, cl, v) > 0
  {
    PolicyReachedMeans(env, cl, affinity);
    ReachedIffNoneShort(env, cl);
    ReachedIsNotShort(env, cl);
  }

  /** The live governed pods on known nodes, whatever their value. */
  function Everyone(env: Env, cl: ClusterState): seq<Pod>
    requires env.Usable()
  {
    Where(LiveKnown(NodeMapOf(cl.nodes)), Listing(env.C(), env.ref.namespace, cl.pods))
  }

  function LiveKnown(nodeMap: map<string, Node>): Pod -> bool {
    (p: Pod) => !p.terminating && p.nodeName in nodeMap
  }

  function CntMap(env: Env, cl: ClusterState, values: set<string>): map<string, nat>
    requires env.Usable()
  {
    map v | v in values :: Cnt(env, cl, v)
  }

  predicate Covers(env: Env, cl: ClusterState, values: set<string>)
    requires env.Usable()
  {
    forall p | p in cl.pods && p.nodeName in NodeMapOf(cl.nodes) ::
      DomainOf(NodeMapOf(cl.nodes)[p.nodeName], env.Key()) in values
  }

  /** The values partition the pods. */
  lemma {:induction false} ValuesPartition(env: Env, cl: ClusterState, values: set<string>)
    requires env.Usable() && Covers(env, cl, values)
    ensures |Everyone(env, cl)| == Total(CntMap(env, cl, values))
    decreases |cl.pods|
  {
    if cl.pods == [] {
      TotalZero(CntMap(env, cl, values));
    } else {
      var prev, p := cl.(pods := cl.pods[..|cl.pods| - 1]), cl.pods[|cl.pods| - 1];
      assert cl == prev.(pods := prev.pods + [p]);
      ValuesPartition(env, prev, values);
      PartitionSnoc(env, prev, p, values);
    }
  }

  predicate Accounted(env: Env, cl: ClusterState, p: Pod)
    requires env.Usable()
  {
    Selected(env.C(), env.ref.namespace, p) && LiveKnown(NodeMapOf(cl.nodes))(p)
  }

  lemma EveryoneSnoc(env: Env, prev: ClusterState, p: Pod)
    requires env.Usable()
    ensures |Everyone(env, prev.(pods := prev.pods + [p]))|
         == |Everyone(env, prev)| + if Accounted(env, prev, p) then 1 else 0
  {
    WhereSnoc(SelectedBy(env.C(), env.ref.namespace), prev.pods, p);
    WhereSnoc(LiveKnown(NodeMapOf(prev.nodes)), Listing(env.C(), env.ref.namespace, prev.pods), p);
  }

  lemma CntSnoc(env: Env, prev: ClusterState, p: Pod, v: string)
    requires env.Usable()
    ensures Cnt(env, prev.(pods := prev.pods + [p]), v)
         == Cnt(env, prev, v)
            + if Accounted(env, prev, p) && DomainOf(NodeMapOf(prev.nodes)[p.nodeName], env.Key()) == v then 1 else 0
  {
    MembersSnoc(env.C(), env.ref.namespace, prev, p, v);
  }

  lemma CntMapSnoc(env: Env, prev: ClusterState, p: Pod, values: set<string>)
    requires env.Usable()
    ensures var before, after := CntMap(env, prev, values), CntMap(env, prev.(pods := prev.pods + [p]), values);
            if Accounted(env, prev, p) then
              var v := DomainOf(NodeMapOf(prev.nodes)[p.nodeName], env.Key());
              v in values ==> after == before[v := before[v] + 1]
            else after == before
  {
    forall v {
      CntSnoc(env, prev, p, v);
    }
  }

  lemma PartitionSnoc(env: Env, prev: ClusterState, p: Pod, values: set<string>)
    requires env.Usable() && Covers(env, prev.(pods := prev.pods + [p]), values)
    ensures var cl := prev.(pods := prev.pods + [p]);
            |Everyone(env, cl)| - |Everyone(env, prev)|
            == Total(CntMap(env, cl, values)) - Total(CntMap(env, prev, values))
  {
    EveryoneSnoc(env, prev, p);
    CntMapSnoc(env, prev, p, values);
    if Accounted(env, prev, p) {
      assert p in (prev.pods + [p]);
      var before, v := CntMap(env, prev, values), DomainOf(NodeMapOf(prev.nodes)[p.nodeName], env.Key());
      TotalUpdate(before, v, before[v] + 1);
    }
  }

  /** The replicas of the whole policy. */
  ghost function Wanted(env: Env, cl: ClusterState): nat
    requires Proper(env, cl)
  {
    Total(Replicas(env, cl))
  }

  function Replicas(env: Env, cl: ClusterState): map<string, nat>
    requires Proper(env, cl)
  {
    map v | v in env.Policy() :: env.Policy()[v]
  }

  /** The values of the policy and those of the nodes of all pods. */
  function ValuesOf(env: Env, cl: ClusterState): set<string>
    requires env.Usable()
  {
    env.Policy().Keys
    + set p | p in cl.pods && p.nodeName in NodeMapOf(cl.nodes) :: DomainOf(NodeMapOf(cl.nodes)[p.nodeName], env.Key())
  }

  function ExcessMap(env: Env, cl: ClusterState, values: set<string>): map<string, nat>
    requires env.Usable()
  {
    map v | v in values :: Excess(env, cl, v)
  }

  ghost function TotalExcess(env: Env, cl: ClusterState): nat
    requires env.Usable()
  {
    Total(ExcessMap(env, cl, ValuesOf(env, cl)))
  }

  function ShortMap(env: Env, cl: ClusterState, values: set<string>): map<string, nat>
    requires env.Usable()
  {
    map v | v in values :: Short(env, cl, v)
  }

  function DesiredMap(env: Env, cl: ClusterState, values: set<string>): map<string, nat>
    requires Proper(env, cl)
  {
    map v | v in values :: if v in env.Policy() then env.Policy()[v] as nat else 0
  }

  lemma WantedOn(env: Env, cl: ClusterState, values: set<string>)
    requires Proper(env, cl) && env.Policy().Keys <= values
    ensures Total(DesiredMap(env, cl, values)) == Wanted(env, cl)
  {
    var m := DesiredMap(env, cl, values);
    TotalRestrict(m, env.Policy().Keys);
    assert (map v | v in m && v in env.Policy().Keys :: m[v]) == Replicas(env, cl);
  }

  lemma DeficitOnMore(env: Env, cl: ClusterState, values: set<string>)
    requires Proper(env, cl) && env.Policy().Keys <= values
    ensures Total(ShortMap(env, cl, values)) == Deficit(env, cl)
  {
    var m := ShortMap(env, cl, values);
    TotalRestrict(m, env.Policy().Keys);
    assert (map v | v in m && v in env.Policy().Keys :: m[v]) == Shortages(env, cl, env.Policy().Keys);
  }

  /** Value by value, the pods there are and those missing make up the replicas and the pods too many. */
  lemma BalanceOn(env: Env, cl: ClusterState, values: set<string>)
    requires Proper(env, cl)
    ensures Total(CntMap(env, cl, values)) + Total(ShortMap(env, cl, values))
         == Total(DesiredMap(env, cl, values)) + Total(ExcessMap(env, cl, values))
  {
    var sums: map<string, nat> := map v | v in values :: Cnt(env, cl, v) + Short(env, cl, v);
    TotalAdd(sums, CntMap(env, cl, values), ShortMap(env, cl, values));
    TotalAdd(sums, DesiredMap(env, cl, values), ExcessMap(env, cl, values));
  }

  /** The books balance: the pods there are and those missing make up the policy and the pods too many. */
  lemma PodsBalance(env: Env, cl: ClusterState)
    requires Proper(env, cl)
    ensures |Everyone(env, cl)| + Deficit(env, cl) == Wanted(env, cl) + TotalExcess(env, cl)
  {
    var values := ValuesOf(env, cl);
    ValuesPartition(env, cl, values);
    WantedOn(env, cl, values);
    DeficitOnMore(env, cl, values);
    BalanceOn(env, cl, values);
  }

  lemma NoExcess(env: Env, cl: ClusterState)
    requires env.Usable() && forall v :: Cnt(env, cl, v) <= Desired(env.C(), v)
    ensures TotalExcess(env, cl) == 0
  {
    TotalZero(ExcessMap(env, cl, ValuesOf(env, cl)));
  }

  lemma EveryoneWithout(env: Env, cl: ClusterState, gone: set<Pod>)
    requires Sound(env, cl)
    ensures |Everyone(env, Without(cl, gone))| == |Everyone(env, cl)| - |Common(Everyone(env, cl), gone)|
  {
    var nodeMap, listing := NodeMapOf(cl.nodes), Listing(env.C(), env.ref.namespace, cl.pods);
    WhereCommute(SelectedBy(env.C(), env.ref.namespace), Outside(gone), cl.pods);
    WhereCommute(LiveKnown(nodeMap), Outside(gone), listing);
    WhereDistinct(SelectedBy(env.C(), env.ref.namespace), cl.pods);
    WhereDistinct(LiveKnown(nodeMap), listing);
    OutsideSize(Everyone(env, cl), gone);
  }

  /** Every evicted pod was one of the governed ones. */
  lemma EveryoneAfter(env: Env, cl: ClusterState, log: seq<Attempt>)
    requires Proper(env, cl) && PassOn(env, cl, log)
    ensures |Everyone(env, AfterPass(cl, log))| == |Everyone(env, cl)| - |Evicted(log)|
  {
    EveryoneWithout(env, cl, Evicted(log));
    forall p | p in Evicted(log) ensures p in Everyone(env, cl) {
      EvictedIsMember(env, cl, log, p);
    }
    assert Common(Everyone(env, cl), Evicted(log)) == Evicted(log);
  }

  lemma EvictedIsMember(env: Env, cl: ClusterState, log: seq<Attempt>, p: Pod)
    requires Proper(env, cl) && PassOn(env, cl, log) && p in Evicted(log)
    ensures p in Everyone(env, cl)
  {
    var a :| a in log && a.evicted && a.pod == p;
    var i :| 0 <= i < |log| && log[i] == a;
    var v := DomainOf(NodeMapOf(cl.nodes)[p.nodeName], env.Key());
    AttemptedAre(env, cl, log, v, p);
    AttemptsAreMembers(env, cl, log, v);
    MembersAre(env.C(), env.ref.namespace, cl, v, p);
    WhereMember(SelectedBy(env.C(), env.ref.namespace), cl.pods, p);
    WhereMember(LiveKnown(NodeMapOf(cl.nodes)), Listing(env.C(), env.ref.namespace, cl.pods), p);
  }

  /** Every value has exactly its replicas, and every other value nothing. */
  ghost predicate PolicyMet(env: Env, cl: ClusterState)
    requires env.Usable()
  {
    forall v :: Cnt(env, cl, v) == Desired(env.C(), v)
  }

  /** An acting pass evicts exactly as many pods as are then missing. */
  lemma EvictedAreMissing(env: Env, cl: ClusterState, log: seq<Attempt>)
    requires Proper(env, cl) && PassOn(env, cl, log) && AllEvicted(log) && ObservedShort(env, cl)
    requires |Everyone(env, cl)| == Wanted(env, cl)
    ensures Proper(env, AfterPass(cl, log)) && Deficit(env, AfterPass(cl, log)) == |Evicted(log)|
    ensures forall v :: Cnt(env, AfterPass(cl, log), v) <= Desired(env.C(), v)
  {
    WithoutProper(env, cl, Evicted(log));
    forall v {
      EvictionBounds(env, cl, log, v);
    }
    PodsBalance(env, AfterPass(cl, log));
    NoExcess(env, AfterPass(cl, log));
    EveryoneAfter(env, cl, log);
    assert Replicas(env, AfterPass(cl, log)) == Replicas(env, cl);
  }

  lemma {:induction false} NoStrays(env: Env, cl: ClusterState, ms: seq<Move>, v: string)
    requires env.Usable() && StrayMoves(env, ms) == 0
    ensures StrayHits(env, cl, ms, env.Policy().Keys) == 0 && Overshoots(env, cl, ms, v) == 0
  {
    if ms != [] {
      NoStrays(env, cl, ms[..|ms| - 1], v);
    }
  }

  lemma {:induction false} FilledUp(env: Env, cl: ClusterState, ms: seq<Move>)
    requires Proper(env, cl) && AdmittedRun(env, cl, ms) && |cl.pods| + |ms| <= MAX_INT32
    requires GovernedMoves(env, ms) == Deficit(env, cl) && StrayMoves(env, ms) == 0
    requires forall v :: Cnt(env, cl, v) <= Desired(env.C(), v)
    ensures PolicyMet(env, PlaceAll(cl, ms))
  {
    forall v ensures Cnt(env, PlaceAll(cl, ms), v) == Desired(env.C(), v) {
      FilledUpAt(env, cl, ms, v);
    }
  }

  lemma {:induction false} FilledUpAt(env: Env, cl: ClusterState, ms: seq<Move>, v: string)
    requires Proper(env, cl) && AdmittedRun(env, cl, ms) && |cl.pods| + |ms| <= MAX_INT32
    requires GovernedMoves(env, ms) == Deficit(env, cl) && StrayMoves(env, ms) == 0
    requires Cnt(env, cl, v) <= Desired(env.C(), v)
    ensures Cnt(env, PlaceAll(cl, ms), v) == Desired(env.C(), v)
  {
    NoStrays(env, cl, ms, v);
    ExactFilling(env, cl, ms);
    DeficitZero(env, PlaceAll(cl, ms));
    NoOverfilling(env, cl, ms, v);
    assert v in env.Policy() ==> Cnt(env, PlaceAll(cl, ms), v) >= env.Policy()[v];
  }

  lemma EveryoneMove(env: Env, cl: ClusterState, m: Move)
    requires Sound(env, cl) && Admitted(env, cl, m)
    ensures |Everyone(env, Place(cl, m))|
         == |Everyone(env, cl)| + if Selected(env.C(), env.ref.namespace, m.pod) then 1 else 0
  {
    NodeMapLookup(cl.nodes, m.node.name);
    EveryoneSnoc(env, cl, m.pod.(nodeName := m.node.name));
  }

  lemma {:induction false} EveryoneRun(env: Env, cl: ClusterState, ms: seq<Move>)
    requires Sound(env, cl) && AdmittedRun(env, cl, ms) && |cl.pods| + |ms| <= MAX_INT32
    ensures |Everyone(env, PlaceAll(cl, ms))| == |Everyone(env, cl)| + GovernedMoves(env, ms) + StrayMoves(env, ms)
  {
    if ms != [] {
      var prefix, m := ms[..|ms| - 1], ms[|ms| - 1];
      EveryoneRun(env, cl, prefix);
      RunSound(env, cl, prefix);
      EveryoneMove(env, PlaceAll(cl, prefix), m);
      MoveCounts(env, PlaceAll(cl, prefix), m);
    }
  }

  lemma {:induction false} UncountedRun(env: Env, cl: ClusterState, ms: seq<Move>, v: string)
    requires Sound(env, cl) && AdmittedRun(env, cl, ms) && |cl.pods| + |ms| <= MAX_INT32
    requires GovernedMoves(env, ms) == 0 && StrayMoves(env, ms) == 0
    ensures Cnt(env, PlaceAll(cl, ms), v) == Cnt(env, cl, v)
  {
    if ms != [] {
      UncountedRun(env, cl, ms[..|ms| - 1], v);
      RunSound(env, cl, ms[..|ms| - 1]);
      MoveCounts(env, PlaceAll(cl, ms[..|ms| - 1]), ms[|ms| - 1]);
    }
  }

  /** A policy that is met exactly has exactly as many pods as it wants. */
  lemma MetMeansWanted(env: Env, cl: ClusterState)
    requires Proper(env, cl) && PolicyMet(env, cl)
    ensures |Everyone(env, cl)| == Wanted(env, cl)
  {
    PodsBalance(env, cl);
    NoExcess(env, cl);
    DeficitZero(env, cl);
    forall v | v in env.Policy() ensures Cnt(env, cl, v) >= env.Policy()[v] {
      assert Cnt(env, cl, v) == Desired(env.C(), v);
    }
  }

  lemma NothingEvicted(env: Env, cl: ClusterState, log: seq<Attempt>)
    requires env.Usable() && log == []
    ensures Evicted(log) == {} && AfterPass(cl, log) == cl
  {
    WhereAll(Outside(Evicted(log)), cl.pods);
  }

  /**
   Convergence. There are as many pods as the policy wants in all; one pass evicts, every eviction
   succeeds, and as many pods of the policy as were evicted are admitted again, among any other pods. The
   policy is then met exactly if and only if no stray pod came, and it was met before or some value that
   had pods was short.
   */
  lemma {:induction false} Convergence(env: Env, cl: ClusterState, log: seq<Attempt>, ms: seq<Move>)
    requires Proper(env, cl) && PassOn(env, cl, log) && AllEvicted(log)
    requires |Everyone(env, cl)| == Wanted(env, cl)
    requires AdmittedRun(env, AfterPass(cl, log), ms) && |AfterPass(cl, log).pods| + |ms| <= MAX_INT32
    requires GovernedMoves(env, ms) == |Evicted(log)|
    ensures PolicyMet(env, PlaceAll(AfterPass(cl, log), ms))
       <==> StrayMoves(env, ms) == 0 && (PolicyMet(env, cl) || ObservedShort(env, cl))
  {
    WithoutProper(env, cl, Evicted(log));
    if StrayMoves(env, ms) != 0 {
      StraysAreTooMany(env, cl, log, ms);
    } else if ObservedShort(env, cl) {
      EvictedAreMissing(env, cl, log);
      FilledUp(env, AfterPass(cl, log), ms);
    } else {
      NothingAttempted(env, cl, log);
      NothingEvicted(env, cl, log);
      forall v ensures Cnt(env, PlaceAll(cl, ms), v) == Cnt(env, cl, v) {
        UncountedRun(env, cl, ms, v);
      }
    }
  }

  lemma {:induction false} StraysAreTooMany(env: Env, cl: ClusterState, log: seq<Attempt>, ms: seq<Move>)
    requires Proper(env, cl) && PassOn(env, cl, log) && |Everyone(env, cl)| == Wanted(env, cl)
    requires Proper(env, AfterPass(cl, log)) && AdmittedRun(env, AfterPass(cl, log), ms)
    requires |AfterPass(cl, log).pods| + |ms| <= MAX_INT32
    requires GovernedMoves(env, ms) == |Evicted(log)| && StrayMoves(env, ms) != 0
    ensures !PolicyMet(env, PlaceAll(AfterPass(cl, log), ms))
  {
    var end := PlaceAll(AfterPass(cl, log), ms);
    EveryoneAfter(env, cl, log);
    EveryoneRun(env, AfterPass(cl, log), ms);
    RunSound(env, AfterPass(cl, log), ms);
    assert Replicas(env, end) == Replicas(env, cl);
    if PolicyMet(env, end) {
      MetMeansWanted(env, end);
    }
  }

  /** Once met exactly, the policy is left alone by any further pass. */
  lemma MetIsQuiet(env: Env, cl: ClusterState)
    requires Proper(env, cl) && PolicyMet(env, cl)
    ensures forall log | PassOn(env, cl, log) :: log == []
  {
    SettledIsQuiet(env, cl);
  }

  /**
   The whole loop: the pass evicts, the evicted pods come back as new pods that can go to any value, each
   of them is admitted in its cycle, the policy is met exactly, and no further pass attempts anything.
   */
  lemma {:induction false} EvictedPodsComeBack(env: Env, cl: ClusterState, log: seq<Attempt>, arrivals: seq<Arrival>)
    returns (ms: seq<Move>)
    requires Proper(env, cl) && PassOn(env, cl, log) && AllEvicted(log) && ObservedShort(env, cl)
    requires |Everyone(env, cl)| == Wanted(env, cl)
    requires |arrivals| == |Evicted(log)| && |AfterPass(cl, log).pods| + |arrivals| <= MAX_INT32
    requires forall a | a in arrivals :: CanFill(env, AfterPass(cl, log), a)
    requires DistinctPods(AfterPass(cl, log).pods + PodsArriving(arrivals))
    ensures Serves(arrivals, ms) && AdmittedRun(env, AfterPass(cl, log), ms)
    ensures PolicyMet(env, PlaceAll(AfterPass(cl, log), ms))
    ensures forall further | PassOn(env, PlaceAll(AfterPass(cl, log), ms), further) :: further == []
  {
    EvictedAreMissing(env, cl, log);
    ms := ArrivalsNeverStall(env, AfterPass(cl, log), arrivals);
    AllGoverned(env, AfterPass(cl, log), ms);
    FilledUp(env, AfterPass(cl, log), ms);
    RunSound(env, AfterPass(cl, log), ms);
    MetIsQuiet(env, PlaceAll(AfterPass(cl, log), ms));
  }
}
