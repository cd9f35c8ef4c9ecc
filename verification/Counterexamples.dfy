/** Small clusters on which the two programs do not do what their purpose suggests. */
module Counterexamples {
  import opened Cluster
  import opened Seqs
  import opened PolicyMap
  import opened Counting
  import opened Updates
  import Incremental
  import opened TopologyScheduling
  import opened Descheduler
  import opened Snapshots
  import opened Admission
  import opened Convergence

  const ZONE := "zone"
  const A := Node("node-a", map[ZONE := "a"])
  const B := Node("node-b", map[ZONE := "b"])
  const REF := PolicyRef("default", "policy-zone")
  const STRAY_LABELS: Labels := map["app" := "web"]
  const WEB_LABELS: Labels := STRAY_LABELS[TOPOLOGY_SCHEDULING_LABEL_KEY := "policy-zone"]

  function PodAt(name: string, nodeName: string): Pod {
    Pod("default", name, WEB_LABELS, false, Running, nodeName)
  }

  /** The selector matches it, but it carries no policy label. */
  function StrayAt(name: string, nodeName: string): Pod {
    Pod("default", name, STRAY_LABELS, false, Running, nodeName)
  }

  /** matchLabels: app: web. */
  function Web(): Selector { (labels: Labels) => "app" in labels && labels["app"] == "web" }

  function AnyNode(): Node -> bool { (n: Node) => true }

  function Wants(a: int32, b: int32): Env {
    Env(map[REF := PolicySpec(ZONE, "Fill", [SchedulePolicy("a", a), SchedulePolicy("b", b)], Some(Web()))], REF)
  }

  function On(pods: seq<Pod>): ClusterState { ClusterState([A, B], pods) }

  lemma Wanting(a: int32, b: int32)
    ensures Wants(a, b).Usable() && Wants(a, b).Policy() == map["a" := a, "b" := b]
    ensures NodeMapOf([A, B]) == map["node-a" := A, "node-b" := B]
  {
    var dp := [SchedulePolicy("a", a), SchedulePolicy("b", b)];
    assert dp[..1] == [SchedulePolicy("a", a)] && dp[..1][..0] == [];
    assert PolicyOf([]) == map[];
    assert PolicyOf(dp[..1]) == map["a" := a];
    assert [A, B][..1] == [A] && [A][..0] == [];
    assert NodeMapOf([A]) == map["node-a" := A];
  }

  predicate CountsAt(p: Pod, v: string) {
    (p.nodeName == "node-a" && v == "a") || (p.nodeName == "node-b" && v == "b")
  }

  predicate IsWeb(p: Pod) { p.namespace == "default" && !p.terminating && Web()(p.labels) }

  lemma AllAreWeb(name: string, nodeName: string)
    ensures IsWeb(PodAt(name, nodeName)) && IsWeb(StrayAt(name, nodeName))
  {
    assert |"app"| != |TOPOLOGY_SCHEDULING_LABEL_KEY|;
  }

  lemma NamesDiffer()
    ensures "a" != "b" && "node-a" != "node-b"
  {
    assert "node-a"[5] != "node-b"[5];
  }

  lemma CountOneMore(a: int32, b: int32, pods: seq<Pod>, p: Pod, v: string)
    requires IsWeb(p)
    ensures Wants(a, b).Usable()
    ensures Cnt(Wants(a, b), On(pods + [p]), v) == Cnt(Wants(a, b), On(pods), v) + if CountsAt(p, v) then 1 else 0
  {
    Wanting(a, b);
    CntSnoc(Wants(a, b), On(pods), p, v);
  }

  lemma CountOne(a: int32, b: int32, p: Pod, v: string)
    requires IsWeb(p)
    ensures Wants(a, b).Usable() && Cnt(Wants(a, b), On([p]), v) == if CountsAt(p, v) then 1 else 0
  {
    CountOneMore(a, b, [], p, v);
    assert [] + [p] == [p];
  }

  lemma CountTwo(a: int32, b: int32, p: Pod, q: Pod, v: string)
    requires IsWeb(p) && IsWeb(q)
    ensures Wants(a, b).Usable()
    ensures Cnt(Wants(a, b), On([p, q]), v)
         == (if CountsAt(p, v) then 1 else 0) + if CountsAt(q, v) then 1 else 0
  {
    CountOne(a, b, p, v);
    CountOneMore(a, b, [p], q, v);
    assert [p] + [q] == [p, q];
  }

  lemma ProperTwo(a: int32, b: int32, p: Pod, q: Pod)
    requires a >= 0 && b >= 0 && p.name != q.name
    ensures Proper(Wants(a, b), On([p, q]))
  {
    NamesDiffer();
    Wanting(a, b);
  }

  /** Two pods in zone a where the policy wants one in a and one in b. */
  function Lopsided(): ClusterState {
    On([PodAt("p", "node-a"), PodAt("q", "node-a")])
  }

  lemma LopsidedCounts(v: string)
    ensures Proper(Wants(1, 1), Lopsided())
    ensures Cnt(Wants(1, 1), Lopsided(), v) == if v == "a" then 2 else 0
    ensures Desired(Wants(1, 1).C(), v) == if v == "a" || v == "b" then 1 else 0
  {
    AllAreWeb("p", "node-a");
    AllAreWeb("q", "node-a");
    NamesDiffer();
    Wanting(1, 1);
    ProperTwo(1, 1, PodAt("p", "node-a"), PodAt("q", "node-a"));
    CountTwo(1, 1, PodAt("p", "node-a"), PodAt("q", "node-a"), v);
  }

  lemma LopsidedReplicas()
    requires Proper(Wants(1, 1), Lopsided())
    ensures Wanted(Wants(1, 1), Lopsided()) == 2
  {
    Wanting(1, 1);
    var replicas := Replicas(Wants(1, 1), Lopsided());
    TotalSplit(replicas, "a");
    TotalSplit(replicas - {"a"}, "b");
    assert replicas - {"a"} - {"b"} == map[];
  }

  lemma LopsidedTotals()
    requires Proper(Wants(1, 1), Lopsided())
    ensures |Everyone(Wants(1, 1), Lopsided())| == 2 == Wanted(Wants(1, 1), Lopsided())
  {
    Wanting(1, 1);
    WhereAll(SelectedBy(Wants(1, 1).C(), REF.namespace), Lopsided().pods);
    WhereAll(LiveKnown(NodeMapOf(Lopsided().nodes)), Lopsided().pods);
    LopsidedReplicas();
  }

  /** Zone b has no pod, so it is not seen to be short, and no pass ever evicts the pod too many. */
  lemma {:induction false} EmptyValueIsNotSeen(log: seq<Attempt>)
    ensures Proper(Wants(1, 1), Lopsided())
    ensures |Everyone(Wants(1, 1), Lopsided())| == Wanted(Wants(1, 1), Lopsided())
    ensures PassOn(Wants(1, 1), Lopsided(), log) ==> log == []
    ensures !PolicyMet(Wants(1, 1), Lopsided())
  {
    forall v {
      LopsidedCounts(v);
    }
    LopsidedCounts("b");
    LopsidedTotals();
    assert Cnt(Wants(1, 1), Lopsided(), "b") == 0;
    if PassOn(Wants(1, 1), Lopsided(), log) {
      NothingAttempted(Wants(1, 1), Lopsided(), log);
    }
  }

  /** A negative number of replicas for a value with a pod, while another value is short, is a panic. */
  lemma NegativeReplicasCrash()
    ensures var env, cl := Wants(-1, 2), On([PodAt("p", "node-a"), PodAt("q", "node-b")]);
      Wants(-1, 2).Usable() && Crashes(env.C(), NodeMapOf(cl.nodes), Listing(env.C(), REF.namespace, cl.pods))
  {
    var p, q := PodAt("p", "node-a"), PodAt("q", "node-b");
    var env, cl := Wants(-1, 2), On([p, q]);
    Wanting(-1, 2);
    CountTwo(-1, 2, p, q, "a");
    CountTwo(-1, 2, p, q, "b");
    var nodeMap, listing := NodeMapOf(cl.nodes), Listing(env.C(), REF.namespace, cl.pods);
    assert Group(ZONE, nodeMap, listing, "b") != [];
    assert Diff(env.C(), "b", 1) == 1 && !TopoReached(env.C(), nodeMap, listing);
    assert Group(ZONE, nodeMap, listing, "a") != [] && Desired(env.C(), "a") == -1;
    CrashesIff(env.C(), nodeMap, listing);
  }

  /** Two cycles on empty zones: a pod of the policy goes to b, then a stray pod goes to a, which should have none. */
  function StrayRun(): seq<Move> {
    [Move(PodAt("r", ""), AnyNode(), B), Move(StrayAt("p", ""), AnyNode(), A)]
  }

  lemma FirstCycle()
    ensures Wants(0, 2).Usable() && Sound(Wants(0, 2), On([])) && Admitted(Wants(0, 2), On([]), StrayRun()[0])
  {
    var env, m := Wants(0, 2), StrayRun()[0];
    Wanting(0, 2);
    assert Cnt(env, On([]), "b") == 0;
    FilterMeans(env, On([]), m);
  }

  lemma SecondCycle()
    ensures Wants(0, 2).Usable()
    ensures Admitted(Wants(0, 2), On([PodAt("r", "node-b")]), StrayRun()[1])
  {
    Wanting(0, 2);
    assert |"app"| != |TOPOLOGY_SCHEDULING_LABEL_KEY|;
    assert !PodRequiresTopologyScheduling(StrayAt("p", ""));
  }

  lemma StrayRunIs(cl: ClusterState, first: Move, second: Move)
    requires Wants(0, 2).Usable()
    requires Admitted(Wants(0, 2), cl, first) && Admitted(Wants(0, 2), Place(cl, first), second)
    ensures AdmittedRun(Wants(0, 2), cl, [first, second])
    ensures PlaceAll(cl, [first, second]) == Place(Place(cl, first), second)
  {
    assert [first, second][..1] == [first] && [first][..0] == [];
    assert PlaceAll(cl, [first]) == Place(cl, first);
  }

  lemma StrayRunEnds()
    ensures Wants(0, 2).Usable() && AdmittedRun(Wants(0, 2), On([]), StrayRun())
    ensures PlaceAll(On([]), StrayRun()) == On([PodAt("r", "node-b"), StrayAt("p", "node-a")])
  {
    FirstCycle();
    SecondCycle();
    assert Place(On([]), StrayRun()[0]) == On([PodAt("r", "node-b")]);
    StrayRunIs(On([]), StrayRun()[0], StrayRun()[1]);
  }

  lemma StrayRunIsLopsided()
    ensures var env, end := Wants(0, 2), On([PodAt("r", "node-b"), StrayAt("p", "node-a")]);
      Proper(env, end) && Cnt(env, end, "b") == 1 && Cnt(env, end, "a") == 1
  {
    AllAreWeb("r", "node-b");
    AllAreWeb("p", "node-a");
    NamesDiffer();
    ProperTwo(0, 2, PodAt("r", "node-b"), StrayAt("p", "node-a"));
    CountTwo(0, 2, PodAt("r", "node-b"), StrayAt("p", "node-a"), "a");
    CountTwo(0, 2, PodAt("r", "node-b"), StrayAt("p", "node-a"), "b");
  }

  /** Filter has passed both pods, and yet every pass of the strategy now attempts an eviction. */
  lemma StraysMakeThemFight(log: seq<Attempt>)
    ensures Wants(0, 2).Usable() && AdmittedRun(Wants(0, 2), On([]), StrayRun())
    ensures Proper(Wants(0, 2), PlaceAll(On([]), StrayRun()))
    ensures PassOn(Wants(0, 2), PlaceAll(On([]), StrayRun()), log) ==> log != []
  {
    StrayRunEnds();
    StrayRunIsLopsided();
    Wanting(0, 2);
    NamesDiffer();
    assert Desired(Wants(0, 2).C(), "b") == 2 && Desired(Wants(0, 2).C(), "a") == 0;
    if PassOn(Wants(0, 2), PlaceAll(On([]), StrayRun()), log) {
      ActsIff(Wants(0, 2), PlaceAll(On([]), StrayRun()), log);
    }
  }

  /** The pod's node affinity passes node B only. */
  function OnlyB(): Node -> bool { (n: Node) => n.name == "node-b" }

  lemma ZoneAIsFull(b: int32, p: Pod)
    requires IsWeb(p) && p.nodeName == "node-a"
    ensures Wants(1, b).Usable() && "a" in Wants(1, b).Policy() && Wants(1, b).Policy()["a"] == 1
    ensures Cnt(Wants(1, b), On([p]), "a") == 1
  {
    NamesDiffer();
    Wanting(1, b);
    CountOne(1, b, p, "a");
  }

  lemma ZonesAreSound()
    ensures Sound(Wants(1, 2), On([PodAt("p", "node-a")]))
  {
    NamesDiffer();
    Wanting(1, 2);
  }

  lemma ZoneAIsUnkeyed(env: Env, cl: ClusterState)
    requires env.Usable() && env.Key() == ZONE && cl.nodes == [A, B]
    ensures !KeyedFor(env, cl, OnlyB(), "a")
  {
    assert forall i | 0 <= i < 2 && Keys(SnapshotOf(cl)[i], OnlyB(), ZONE) :: SnapshotOf(cl)[i].node == Some(B);
  }

  /** Zone a has its one pod and no counter: Filter lets another pod onto it, and reserving dereferences nil. */
  lemma FullUnkeyedValueIsAdmitted()
    ensures var env, cl, pod := Wants(1, 2), On([PodAt("p", "node-a")]), PodAt("q", "");
      && Wants(1, 2).Usable() && Sound(env, cl) && "a" in env.Policy() && Cnt(env, cl, "a") == env.Policy()["a"]
      && Filter(env.policies, CycleOf(env, cl, pod, OnlyB()), pod, Some(A)) == Success
      && Faults(env.C(), REF.namespace, ViewOf(env, cl, OnlyB()).counts.Keys, pod, Some(A))
  {
    var env, cl, pod := Wants(1, 2), On([PodAt("p", "node-a")]), PodAt("q", "");
    AllAreWeb("p", "node-a");
    ZoneAIsFull(2, PodAt("p", "node-a"));
    ZonesAreSound();
    ZoneAIsUnkeyed(env, cl);
    assert CycleOf(env, cl, pod, OnlyB()) == Some(ViewOf(env, cl, OnlyB()));
    FilterOnAnyNode(env, cl, OnlyB(), pod, A);
  }

  function WebConstraint(): Constraint { Constraint(ZONE, map[], Web()) }

  /** A pod that is already being deleted, alone on its node. */
  function DyingOn(): seq<NodeInfo> {
    [NodeInfo(Some(A), [Some(PodAt("p", "node-a").(terminating := true))])]
  }

  /** Removing a terminating pod in a dry run takes the counter to -1, where a recount finds no pod. */
  lemma TerminatingPodIsSubtracted()
    ensures var c, ch, pair := WebConstraint(), Incremental.Leaves(0, 0), TopologyPair(ZONE, "a");
      && var e, recount := Incremental.EventOf(DyingOn(), ch), Recount(DyingOn(), AnyNode(), c, "default");
         && !Faults(c, "default", recount.Keys, e.pod, e.node) && pair in recount
         && Updated(c, "default", recount, e.pod, e.node, Delta(e))[pair] == -1
         && ScanCount(Incremental.Changed(DyingOn(), ch), c, "default", "a") == 0
  {
    var c, ch := WebConstraint(), Incremental.Leaves(0, 0);
    assert Keys(DyingOn()[0], AnyNode(), ZONE);
    WhereNone(slot => Countable(slot, c.selector, "default"), DyingOn()[0].pods);
    SumZero(Contributions(DyingOn(), c, "default", "a"));
    Incremental.ScanMoves(DyingOn(), ch, c, "default", "a");
  }

  /** One node whose zone is "", and one without a zone. */
  function Unzoned(): seq<NodeInfo> {
    [NodeInfo(Some(Node("node-c", map[ZONE := ""])), []), NodeInfo(Some(Node("node-d", map[])), [])]
  }

  /** Adding a pod on a node without the label leaves every counter, but a recount puts the pod under "". */
  lemma UnlabelledNodeIsRecounted()
    ensures var c, ch, pair := WebConstraint(), Incremental.Joins(1, PodAt("p", "node-d")), TopologyPair(ZONE, "");
      && var e, recount := Incremental.EventOf(Unzoned(), ch), Recount(Unzoned(), AnyNode(), c, "default");
         && !Faults(c, "default", recount.Keys, e.pod, e.node) && pair in recount
         && Updated(c, "default", recount, e.pod, e.node, Delta(e))[pair] == 0
         && ScanCount(Incremental.Changed(Unzoned(), ch), c, "default", "") == 1
  {
    var c, ch := WebConstraint(), Incremental.Joins(1, PodAt("p", "node-d"));
    assert Keys(Unzoned()[0], AnyNode(), ZONE);
    SumZero(Contributions(Unzoned(), c, "default", ""));
    Incremental.ScanMoves(Unzoned(), ch, c, "default", "");
  }
}
