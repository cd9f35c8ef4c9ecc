/** The cluster's objects, as far as the two controllers look at them, and Go's 32-bit integers. */
module Cluster {

  datatype Option<+T> = None | Some(value: T)

  const MIN_INT32: int := -0x8000_0000
  const MAX_INT32: int := 0x7fff_ffff

  /** Go's int32. Every arithmetic step of the source on this type is written with `Wrap`. */
  type int32 = x: int | MIN_INT32 <= x <= MAX_INT32

  /** Two's complement truncation to 32 bits. */
  function Wrap(x: int): (r: int32)
    ensures MIN_INT32 <= x <= MAX_INT32 ==> r == x
  {
    if MIN_INT32 <= x <= MAX_INT32 then x else (x + 0x8000_0000) % 0x1_0000_0000 - 0x8000_0000
  }

  /** Go's addition on int32. */
  function Add(a: int, b: int): int32 { Wrap(a + b) }

  /** Whole turns of 2^32 do not show. */
  lemma WrapTurns(x: int, turns: int)
    ensures Wrap(x + turns * 0x1_0000_0000) == Wrap(x)
  {
  }

  lemma WrapAdd(x: int, y: int, sum: int)
    requires sum == x + y
    ensures Add(Wrap(x), Wrap(y)) == Wrap(sum)
  {
    var p, q := (x + 0x8000_0000) / 0x1_0000_0000, (y + 0x8000_0000) / 0x1_0000_0000;
    WrapTurns(Wrap(x) + Wrap(y), p + q);
    assert Wrap(x) + Wrap(y) + (p + q) * 0x1_0000_0000 == x + y;
  }

  type Labels = map<string, string>

  /** A parsed label selector. */
  type Selector = Labels -> bool

  datatype Phase = Pending | Running | Succeeded | Failed | Unknown

  /** `terminating` stands for a DeletionTimestamp that is set; `nodeName` is "" before binding. */
  datatype Pod = Pod(
    namespace: string,
    name: string,
    labels: Labels,
    terminating: bool,
    phase: Phase,
    nodeName: string)

  datatype Node = Node(name: string, labels: Labels)

  /** The scheduler's snapshot of one node; nil pointers of the source are `None`. */
  datatype NodeInfo = NodeInfo(node: Option<Node>, pods: seq<Option<Pod>>)

  datatype TopologyPair = TopologyPair(key: string, value: string)

  datatype SchedulePolicy = SchedulePolicy(name: string, replicas: int32)

  /** The spec of a TopologySchedulingPolicy; a selector that does not parse is `None`. */
  datatype PolicySpec = PolicySpec(
    topologyKey: string,
    scheduleStrategy: string,
    deployPlacement: seq<SchedulePolicy>,
    selector: Option<Selector>)

  datatype PolicyRef = PolicyRef(namespace: string, name: string)

  /** TopologySchedulingConstraint: the parsed form both controllers work on. */
  datatype Constraint = Constraint(
    topologyKey: string,
    schedulePolicy: map<string, int32>,
    selector: Selector)

  /** Go's map read on a node's labels: a missing label reads as "". */
  function DomainOf(node: Node, key: string): string {
    if key in node.labels then node.labels[key] else ""
  }

  /** Pods the policy governs, whatever their lifecycle: same namespace and selected. */
  predicate Selected(c: Constraint, ns: string, p: Pod) {
    p.namespace == ns && c.selector(p.labels)
  }

  /** The replicas a value should get; values outside the policy should get none. */
  function Desired(c: Constraint, v: string): int32 {
    if v in c.schedulePolicy then c.schedulePolicy[v] else 0
  }
}
