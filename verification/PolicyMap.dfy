/** The list-to-map policy conversion shared by the scheduler and the descheduler. */
module PolicyMap {
  import opened Cluster

  function PolicyOf(dp: seq<SchedulePolicy>): map<string, int32> {
    if dp == [] then map[]
    else PolicyOf(dp[..|dp| - 1])[dp[|dp| - 1].name := dp[|dp| - 1].replicas]
  }

  /** Entry i is the last one that names its value. */
  predicate LastEntry(dp: seq<SchedulePolicy>, i: nat)
    requires i < |dp|
  {
    forall j | i < j < |dp| :: dp[j].name != dp[i].name
  }

  lemma LastEntryKeeps(dp: seq<SchedulePolicy>, i: nat)
    requires i < |dp| - 1 && dp[|dp| - 1].name != dp[i].name
    ensures LastEntry(dp[..|dp| - 1], i) <==> LastEntry(dp, i)
  {
    var prefix := dp[..|dp| - 1];
    if LastEntry(prefix, i) {
      assert forall j | i < j < |prefix| :: dp[j] == prefix[j];
    }
  }

  /** The map holds exactly the last replicas written for each value that is named. */
  lemma {:induction false} LastEntryWins(dp: seq<SchedulePolicy>, v: string, r: int32)
    ensures v in PolicyOf(dp) && PolicyOf(dp)[v] == r
       <==> exists i :: 0 <= i < |dp| && LastEntry(dp, i) && dp[i] == SchedulePolicy(v, r)
  {
    if dp != [] {
      var last := |dp| - 1;
      if dp[last].name == v {
        assert LastEntry(dp, last);
        assert forall i | 0 <= i < last && LastEntry(dp, i) :: dp[last].name != dp[i].name;
      } else {
        LastEntryWins(dp[..last], v, r);
        forall i | 0 <= i < last && dp[i].name == v ensures LastEntry(dp[..last], i) <==> LastEntry(dp, i) {
          LastEntryKeeps(dp, i);
        }
      }
    }
  }

  method CovertPolicy(dp: seq<SchedulePolicy>) returns (policy: map<string, int32>)
    ensures policy == PolicyOf(dp)
  {
    policy := map[];
    for i := 0 to |dp|
      invariant policy == PolicyOf(dp[..i])
    {
      assert dp[..i + 1][..i] == dp[..i];
      policy := policy[dp[i].name := dp[i].replicas];
    }
    assert dp[..|dp|] == dp;
  }

  /** The constraint both controllers derive from a policy. */
  function ConstraintOf(spec: PolicySpec): Constraint
    requires spec.selector.Some?
  {
    Constraint(spec.topologyKey, PolicyOf(spec.deployPlacement), spec.selector.value)
  }

  /** It has the policy's own key and selector, and the replicas that the list names last for a value. */
  lemma ConstraintMeans(spec: PolicySpec)
    requires spec.selector.Some?
    ensures ConstraintOf(spec).topologyKey == spec.topologyKey
    ensures ConstraintOf(spec).selector == spec.selector.value
    ensures forall v, r: int32 ::
      v in ConstraintOf(spec).schedulePolicy && ConstraintOf(spec).schedulePolicy[v] == r
      <==> var dp := spec.deployPlacement;
           exists i :: 0 <= i < |dp| && dp[i] == SchedulePolicy(v, r) && forall j | i < j < |dp| :: dp[j].name != v
  {
    var dp := spec.deployPlacement;
    forall v, r: int32
      ensures v in ConstraintOf(spec).schedulePolicy && ConstraintOf(spec).schedulePolicy[v] == r
         <==> exists i :: 0 <= i < |dp| && dp[i] == SchedulePolicy(v, r) && forall j | i < j < |dp| :: dp[j].name != v
    {
      LastEntryWins(dp, v, r);
      assert forall i | 0 <= i < |dp| && dp[i].name == v ::
        LastEntry(dp, i) <==> forall j | i < j < |dp| :: dp[j].name != v;
    }
  }
}
