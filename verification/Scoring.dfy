/** The plugin's Score, over exact rationals with Go's truncation toward zero. */
module Scoring {
  import opened Cluster
  import opened Updates
  import opened TopologyScheduling

  const SCHEDULE_STRATEGY_FILL := "Fill"
  const SCHEDULE_STRATEGY_BALANCE := "Balance"

  function Truncate(x: real): int {
    if x >= 0.0 then x.Floor else -((-x).Floor)
  }

  function ScoreOf(count: real, desired: real, strategy: string): int
    requires desired != 0.0
  {
    if strategy == SCHEDULE_STRATEGY_BALANCE then Truncate(1.0 - count / desired * 100.0)
    else if strategy == SCHEDULE_STRATEGY_FILL then Truncate(count / desired * 100.0)
    else 0
  }

  datatype ScoreResult = Scored(score: int) | NodeNotExist

  /** No counter has been decremented for a pod that it did not count. */
  predicate NonNegative(counts: Counts) {
    forall pair | pair in counts :: counts[pair] >= 0
  }

  /** `node` is what the snapshot holds under the candidate's name. */
  function Score(cycle: Option<CycleView>, pod: Pod, node: Option<Node>): ScoreResult
    requires cycle.Some? ==> NonNegative(cycle.value.counts)
  {
    if !PodRequiresTopologyScheduling(pod) then Scored(0)
    else if cycle.None? then Scored(0)
    else if node.None? then NodeNotExist
    else
      var s := cycle.value;
      if s.constraint.topologyKey !in node.value.labels then Scored(0)
      else
        var tpval := node.value.labels[s.constraint.topologyKey];
        var pair := TopologyPair(s.constraint.topologyKey, tpval);
        if tpval !in s.constraint.schedulePolicy then Scored(0)
        else
          var desired := s.constraint.schedulePolicy[tpval];
          if pair !in s.counts then Scored(0)
          else if s.counts[pair] >= desired then Scored(0)
          else
            assert s.counts[pair] >= 0;
            Scored(ScoreOf(s.counts[pair] as real, desired as real, s.scheduleStrategy))
  }

  lemma TruncateMonotone(x: real, y: real)
    requires x <= y
    ensures Truncate(x) <= Truncate(y)
  {
  }

  /** Shares compare as their cross products do. */
  lemma RatioOrder(a: int, b: int, c: int, d: int)
    requires b > 0 && d > 0
    ensures a as real / b as real <= c as real / d as real <==> a * d <= c * b
  {
    var x, y := a as real / b as real, c as real / d as real;
    var p, q := b as real, d as real;
    assert (a * d) as real == x * p * q && (c * b) as real == y * q * p;
    MulOrder(x, y, p * q);
    assert x * p * q == x * (p * q) && y * q * p == y * (p * q);
  }

  lemma MulOrder(x: real, y: real, z: real)
    requires z > 0.0
    ensures x * z <= y * z <==> x <= y
  {
    if x > y {
      assert (x - y) * z > 0.0;
    } else {
      assert (y - x) * z >= 0.0;
    }
  }

  /** The candidate's value is in the policy, counted, and short. */
  predicate IsOpen(s: CycleView, node: Node, count: int, desired: int) {
    var key := s.constraint.topologyKey;
    && key in node.labels && node.labels[key] in s.constraint.schedulePolicy
    && TopologyPair(key, node.labels[key]) in s.counts
    && count == s.counts[TopologyPair(key, node.labels[key])]
    && desired == s.constraint.schedulePolicy[node.labels[key]]
    && count < desired
  }

  lemma Shares(count: int, desired: int)
    requires desired > 0
    ensures count as real / desired as real * 100.0 == (100 * count) as real / desired as real
    ensures 1.0 - count as real / desired as real * 100.0 == (desired - 100 * count) as real / desired as real
  {
    var q, d := count as real / desired as real, desired as real;
    assert q * d == count as real;
    assert (100 * count) as real == q * 100.0 * d;
    QuotientIs((100 * count) as real, d, q * 100.0);
    assert (desired - 100 * count) as real == (1.0 - q * 100.0) * d;
    QuotientIs((desired - 100 * count) as real, d, 1.0 - q * 100.0);
  }

  lemma QuotientIs(x: real, d: real, q: real)
    requires d > 0.0 && x == q * d
    ensures x / d == q
  {
  }

  /** Whole percentages between two shares, compared by cross-multiplication. */
  lemma PercentApart(a: int, b: int, c: int, d: int, percent: nat)
    requires b > 0 && d > 0 && (100 * a + percent * b) * d <= 100 * c * b
    ensures (100 * a) as real / b as real + percent as real <= (100 * c) as real / d as real
  {
    var q := (100 * a) as real / b as real;
    RatioOrder(100 * a + percent * b, b, 100 * c, d);
    assert q * b as real == (100 * a) as real;
    assert (percent * b) as real == percent as real * b as real;
    QuotientIs((100 * a + percent * b) as real, b as real, q + percent as real);
  }

  lemma TruncateApart(x: real, y: real)
    requires (0.0 <= x && x + 1.0 <= y) || x + 2.0 <= y
    ensures Truncate(x) < Truncate(y)
  {
  }

  /**
   Among short values Fill prefers the fuller one and Balance the emptier one, by the share that is filled:
   strictly so if the shares are one percent apart, or two for Balance, where the fraction is cut off on
   both sides of zero.
   */
  lemma ScoreFollowsStrategy(s: CycleView, pod: Pod, m: Node, n: Node, a: int, b: int, c: int, d: int)
    requires PodRequiresTopologyScheduling(pod) && NonNegative(s.counts)
    requires IsOpen(s, m, a, b) && IsOpen(s, n, c, d) && a * d <= c * b
    ensures Score(Some(s), pod, Some(m)).Scored? && Score(Some(s), pod, Some(n)).Scored?
    ensures var forM, forN := Score(Some(s), pod, Some(m)).score, Score(Some(s), pod, Some(n)).score;
      && (s.scheduleStrategy == "Fill" ==> forM <= forN && ((100 * a + b) * d <= 100 * c * b ==> forM < forN))
      && (s.scheduleStrategy == "Balance" ==> forM >= forN && ((100 * a + 2 * b) * d <= 100 * c * b ==> forM > forN))
  {
    Shares(a, b);
    Shares(c, d);
    RatioOrder(a, b, c, d);
    var x, y := a as real / b as real * 100.0, c as real / d as real * 100.0;
    RatioOrder(0, 1, a, b);
    TruncateMonotone(x, y);
    TruncateMonotone(1.0 - y, 1.0 - x);
    if (100 * a + b) * d <= 100 * c * b {
      PercentApart(a, b, c, d, 1);
      TruncateApart(x, y);
    }
    if (100 * a + 2 * b) * d <= 100 * c * b {
      PercentApart(a, b, c, d, 2);
      TruncateApart(1.0 - y, 1.0 - x);
    }
  }

  /** Scores lie in 0..99 for Fill and in -98..1 for Balance, which is negative once a fiftieth is filled. */
  lemma ScoreRange(s: CycleView, pod: Pod, n: Node, count: int, desired: int)
    requires PodRequiresTopologyScheduling(pod) && NonNegative(s.counts) && IsOpen(s, n, count, desired)
    ensures var r := Score(Some(s), pod, Some(n));
      && r.Scored?
      && (s.scheduleStrategy == "Fill" ==> 0 <= r.score <= 99)
      && (s.scheduleStrategy == "Balance" ==>
            -98 <= r.score <= 1 && (r.score >= 0 <==> 50 * count < desired))
  {
    RatioOrder(0, 1, count, desired);
    RatioOrder(1, 1, count, desired);
    RatioOrder(1, 50, count, desired);
  }

  lemma Product(a: int, b: int)
    ensures a as real * b as real == (a * b) as real
  {
  }

  lemma FloorBounds(q: real, x: int, d: int)
    requires d > 0 && x >= 0 && q * d as real == x as real
    ensures q >= 0.0 && q.Floor * d <= x < (q.Floor + 1) * d
  {
    var f, z := q.Floor, d as real;
    MulOrder(0.0, q, z);
    MulOrder(f as real, q, z);
    Product(f, d);
    assert (f * d) as real <= x as real;
    MulOrder((f + 1) as real, q, z);
    Product(f + 1, d);
    assert x as real < ((f + 1) * d) as real;
  }

  /** Multiplying the bounds of a truncated quotient by its divisor. */
  lemma QuotientBounds(x: int, d: int)
    requires d > 0
    ensures var t := Truncate(x as real / d as real);
            if x >= 0 then t * d <= x < (t + 1) * d else (-t) * d <= -x < (-t + 1) * d
  {
    var q := x as real / d as real;
    assert q * d as real == x as real;
    if x >= 0 {
      FloorBounds(q, x, d);
    } else {
      assert (-q) * d as real == (-x) as real;
      FloorBounds(-q, -x, d);
    }
  }

  /**
   The score itself, for a value of the policy that is counted and short: Fill gives the filled percentage,
   rounded down. Balance gives one minus it, with the fraction cut off. Any other strategy gives 0.
   */
  lemma ScoreValue(s: CycleView, pod: Pod, n: Node, count: int, desired: int)
    requires PodRequiresTopologyScheduling(pod) && NonNegative(s.counts)
    requires s.constraint.topologyKey in n.labels
    requires var pair := TopologyPair(s.constraint.topologyKey, n.labels[s.constraint.topologyKey]);
      pair.value in s.constraint.schedulePolicy && pair in s.counts
      && count == s.counts[pair] < s.constraint.schedulePolicy[pair.value] == desired
    ensures Score(Some(s), pod, Some(n)).Scored?
    ensures var score := Score(Some(s), pod, Some(n)).score;
      if s.scheduleStrategy == "Fill" then score * desired <= 100 * count < (score + 1) * desired
      else if s.scheduleStrategy != "Balance" then score == 0
      else if 100 * count <= desired then score * desired <= desired - 100 * count < (score + 1) * desired
      else -score * desired <= 100 * count - desired < (-score + 1) * desired
  {
    assert count >= 0;
    Shares(count, desired);
    QuotientBounds(100 * count, desired);
    QuotientBounds(desired - 100 * count, desired);
  }

  /** Everywhere else the score is 0, and a node that is not there is an error for a pod that has a cycle state. */
  lemma ScoreElsewhere(cycle: Option<CycleView>, pod: Pod, node: Option<Node>)
    requires cycle.Some? ==> NonNegative(cycle.value.counts)
    ensures Score(cycle, pod, node) == NodeNotExist <==>
      TOPOLOGY_SCHEDULING_LABEL_KEY in pod.labels && cycle.Some? && node.None?
    ensures TOPOLOGY_SCHEDULING_LABEL_KEY !in pod.labels || cycle.None? ==> Score(cycle, pod, node) == Scored(0)
    ensures cycle.Some? && node.Some? && Score(cycle, pod, node) != Scored(0) ==>
      var c, counts, labels := cycle.value.constraint, cycle.value.counts, node.value.labels;
      && c.topologyKey in labels && labels[c.topologyKey] in c.schedulePolicy
      && TopologyPair(c.topologyKey, labels[c.topologyKey]) in counts
      && counts[TopologyPair(c.topologyKey, labels[c.topologyKey])] < c.schedulePolicy[labels[c.topologyKey]]
  {
  }
}
