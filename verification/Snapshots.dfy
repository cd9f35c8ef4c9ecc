/** One cluster seen by both controllers: the scheduler's node snapshot and the descheduler's pod list. */
module Snapshots {
  import opened Cluster
  import opened Seqs
  import opened Counting
  import opened Incremental
  import opened Descheduler

  datatype ClusterState = ClusterState(nodes: seq<Node>, pods: seq<Pod>)

  predicate DistinctNodes(nodes: seq<Node>) {
    forall i, j | 0 <= i < j < |nodes| :: nodes[i].name != nodes[j].name
  }

  predicate DistinctPods(pods: seq<Pod>) {
    forall i, j | 0 <= i < j < |pods| ::
      pods[i].namespace != pods[j].namespace || pods[i].name != pods[j].name
  }

  function PodsOn(pods: seq<Pod>, nodeName: string): seq<Option<Pod>> {
    if pods == [] then []
    else
      var rest := PodsOn(pods[..|pods| - 1], nodeName);
      if pods[|pods| - 1].nodeName == nodeName then rest + [Some(pods[|pods| - 1])] else rest
  }

  /** NodeInfos: every node with the pods bound to it. */
  function SnapshotOf(cl: ClusterState): seq<NodeInfo> {
    seq(|cl.nodes|, i requires 0 <= i < |cl.nodes| =>
      NodeInfo(Some(cl.nodes[i]), PodsOn(cl.pods, cl.nodes[i].name)))
  }

  function SelectedBy(c: Constraint, ns: string): Pod -> bool {
    (p: Pod) => Selected(c, ns, p)
  }

  /** The API server's answer to the descheduler's list call. */
  function Listing(c: Constraint, ns: string, pods: seq<Pod>): seq<Pod> {
    Where(SelectedBy(c, ns), pods)
  }

  /** The live governed pods of value v. */
  function Members(c: Constraint, ns: string, cl: ClusterState, v: string): seq<Pod> {
    Group(c.topologyKey, NodeMapOf(cl.nodes), Listing(c, ns, cl.pods), v)
  }

  lemma {:induction false} NodeMapLookup(nodes: seq<Node>, name: string)
    requires DistinctNodes(nodes)
    ensures name in NodeMapOf(nodes) <==> exists i :: 0 <= i < |nodes| && nodes[i].name == name
    ensures forall i | 0 <= i < |nodes| && nodes[i].name == name ::
      name in NodeMapOf(nodes) && NodeMapOf(nodes)[name] == nodes[i]
  {
    if nodes != [] {
      NodeMapLookup(nodes[..|nodes| - 1], name);
    }
  }

  lemma MembersSnoc(c: Constraint, ns: string, cl: ClusterState, p: Pod, v: string)
    ensures Members(c, ns, cl.(pods := cl.pods + [p]), v)
         == if Selected(c, ns, p) && LiveOn(c.topologyKey, NodeMapOf(cl.nodes), v)(p)
            then Members(c, ns, cl, v) + [p] else Members(c, ns, cl, v)
  {
    WhereSnoc(SelectedBy(c, ns), cl.pods, p);
    WhereSnoc(LiveOn(c.topologyKey, NodeMapOf(cl.nodes), v), Listing(c, ns, cl.pods), p);
  }

  lemma SnapshotSnoc(cl: ClusterState, p: Pod, i: nat)
    requires DistinctNodes(cl.nodes) && i < |cl.nodes| && cl.nodes[i].name == p.nodeName
    ensures SnapshotOf(cl.(pods := cl.pods + [p])) == Changed(SnapshotOf(cl), Joins(i, p))
  {
    assert (cl.pods + [p])[..|cl.pods|] == cl.pods;
  }

  lemma SnapshotSame(cl: ClusterState, p: Pod)
    requires forall i | 0 <= i < |cl.nodes| :: cl.nodes[i].name != p.nodeName
    ensures SnapshotOf(cl.(pods := cl.pods + [p])) == SnapshotOf(cl)
  {
    assert (cl.pods + [p])[..|cl.pods|] == cl.pods;
  }

  /** The two counts agree: what the scheduler sums node by node is what the descheduler groups pod by pod. */
  lemma {:induction false} CountsAgree(c: Constraint, ns: string, cl: ClusterState, v: string)
    requires DistinctNodes(cl.nodes)
    ensures ScanCount(SnapshotOf(cl), c, ns, v) == |Members(c, ns, cl, v)|
    decreases |cl.pods|
  {
    if cl.pods == [] {
      SumZero(Contributions(SnapshotOf(cl), c, ns, v));
    } else {
      var prev, p := cl.(pods := cl.pods[..|cl.pods| - 1]), cl.pods[|cl.pods| - 1];
      assert cl == prev.(pods := prev.pods + [p]);
      CountsAgree(c, ns, prev, v);
      MembersSnoc(c, ns, prev, p, v);
      NodeMapLookup(cl.nodes, p.nodeName);
      if i :| 0 <= i < |cl.nodes| && cl.nodes[i].name == p.nodeName {
        SnapshotSnoc(prev, p, i);
        ScanMoves(SnapshotOf(prev), Joins(i, p), c, ns, v);
      } else {
        SnapshotSame(prev, p);
      }
    }
  }

  lemma MembersAre(c: Constraint, ns: string, cl: ClusterState, v: string, p: Pod)
    ensures p in Members(c, ns, cl, v) <==>
      p in cl.pods && Selected(c, ns, p) && LiveOn(c.topologyKey, NodeMapOf(cl.nodes), v)(p)
  {
    WhereMember(SelectedBy(c, ns), cl.pods, p);
    WhereMember(LiveOn(c.topologyKey, NodeMapOf(cl.nodes), v), Listing(c, ns, cl.pods), p);
  }

  lemma MembersDistinct(c: Constraint, ns: string, cl: ClusterState, v: string)
    requires DistinctPods(cl.pods)
    ensures Distinct(Members(c, ns, cl, v))
  {
    WhereDistinct(SelectedBy(c, ns), cl.pods);
    WhereDistinct(LiveOn(c.topologyKey, NodeMapOf(cl.nodes), v), Listing(c, ns, cl.pods));
  }
}
