/**
 Phase two of the counting as it runs: worker goroutines share the counters, every node index is
 handed out once, and a worker's look-up, pod count and atomic add may interleave with the other
 workers' in any way.
 */
module ParallelCount {
  import opened Cluster
  import opened Seqs
  import opened Counting

  /** What the closure of the parallel loop captures. */
  datatype Job = Job(infos: seq<NodeInfo>, affinity: Node -> bool, c: Constraint, ns: string) {
    function Pairs(): set<TopologyPair> { KeyedPairs(infos, affinity, c.topologyKey) }

    function PairAt(i: nat): TopologyPair
      requires i < |infos| && infos[i].node.Some?
    {
      TopologyPair(c.topologyKey, DomainOf(infos[i].node.value, c.topologyKey))
    }

    function CountAt(i: nat): nat
      requires i < |infos|
    {
      MatchCount(infos[i].pods, c.selector, ns)
    }

    function Final(v: string): nat { ScanCount(infos, c, ns, v) }
  }

  /** Where the task of one node index stands. */
  datatype Stage =
    | Waiting
    | Located
    | Tallied(count: int)
    | Finished

  datatype State = State(stages: seq<Stage>, counters: map<TopologyPair, int32>)

  function Initial(job: Job): State {
    State(seq(|job.infos|, i => Waiting), map pair | pair in job.Pairs() :: 0)
  }

  /** The facts every task relies on when it moves. */
  ghost predicate WellFormed(job: Job, st: State) {
    && AllPresent(job.infos)
    && |st.stages| == |job.infos|
    && st.counters.Keys == job.Pairs()
    && forall i | 0 <= i < |job.infos| :: StageOk(job, st.stages[i], i)
  }

  predicate StageOk(job: Job, stage: Stage, i: nat)
    requires i < |job.infos| && job.infos[i].node.Some?
  {
    match stage
    case Waiting => true
    case Located => job.PairAt(i) in job.Pairs()
    case Tallied(n) => job.PairAt(i) in job.Pairs() && n == job.CountAt(i)
    case Finished => true
  }

  /** One indivisible action of the task of node i. */
  function Step(job: Job, st: State, i: nat): (st': State)
    requires WellFormed(job, st) && i < |st.stages| && st.stages[i] != Finished
    ensures WellFormed(job, st')
  {
    var pair := job.PairAt(i);
    assert StageOk(job, st.stages[i], i);
    match st.stages[i]
    case Waiting => st.(stages := st.stages[i := if pair in st.counters then Located else Finished])
    case Located => st.(stages := st.stages[i := Tallied(job.CountAt(i))])
    case Tallied(count) =>
      State(st.stages[i := Finished], st.counters[pair := Add(st.counters[pair], Wrap(count))])
  }

  /** The schedule names, action by action, the task that moves. */
  ghost predicate Runs(job: Job, st: State, schedule: seq<nat>)
    requires WellFormed(job, st)
    decreases |schedule|
  {
    schedule == [] ||
    (&& schedule[0] < |st.stages| && st.stages[schedule[0]] != Finished
     && Runs(job, Step(job, st, schedule[0]), schedule[1..]))
  }

  ghost function Exec(job: Job, st: State, schedule: seq<nat>): (end: State)
    requires WellFormed(job, st) && Runs(job, st, schedule)
    ensures WellFormed(job, end)
    decreases |schedule|
  {
    if schedule == [] then st else Exec(job, Step(job, st, schedule[0]), schedule[1..])
  }

  /** What the finished tasks have added to the counter of v. */
  function Landed(job: Job, st: State, v: string): seq<nat>
    requires |st.stages| == |job.infos|
  {
    seq(|job.infos|, i requires 0 <= i < |job.infos| =>
      if st.stages[i] == Finished then Contribution(job.infos[i], job.c, job.ns, v) else 0)
  }

  ghost predicate CountsLanded(job: Job, st: State, pair: TopologyPair)
    requires WellFormed(job, st)
  {
    pair in st.counters && st.counters[pair] == Wrap(Sum(Landed(job, st, pair.value)))
  }

  lemma InitialExact(job: Job, pair: TopologyPair)
    requires AllPresent(job.infos) && pair in job.Pairs()
    ensures WellFormed(job, Initial(job)) && CountsLanded(job, Initial(job), pair)
  {
    SumZero(Landed(job, Initial(job), pair.value));
  }

  lemma StepLands(job: Job, st: State, i: nat, v: string)
    requires WellFormed(job, st) && i < |st.stages| && st.stages[i] != Finished
    ensures Sum(Landed(job, Step(job, st, i), v))
         == Sum(Landed(job, st, v))
            + if Step(job, st, i).stages[i] == Finished then Contribution(job.infos[i], job.c, job.ns, v) else 0
  {
    var before, after := Landed(job, st, v), Landed(job, Step(job, st, i), v);
    assert after == before[i := after[i]];
    SumUpdate(before, i, after[i]);
  }

  lemma StepCounts(job: Job, st: State, i: nat, pair: TopologyPair)
    requires WellFormed(job, st) && i < |st.stages| && st.stages[i] != Finished
    requires pair in st.counters
    ensures var st' := Step(job, st, i);
            st'.counters[pair] == if st.stages[i].Tallied? && pair == job.PairAt(i)
                                  then Add(st.counters[pair], Wrap(job.CountAt(i))) else st.counters[pair]
  {
    assert StageOk(job, st.stages[i], i);
  }

  lemma StepExact(job: Job, st: State, i: nat, pair: TopologyPair)
    requires WellFormed(job, st) && i < |st.stages| && st.stages[i] != Finished
    requires CountsLanded(job, st, pair)
    ensures CountsLanded(job, Step(job, st, i), pair)
  {
    StepLands(job, st, i, pair.value);
    StepCounts(job, st, i, pair);
    var own, gain := job.PairAt(i), Contribution(job.infos[i], job.c, job.ns, pair.value);
    if st.stages[i].Tallied? && pair == own {
      assert gain == job.CountAt(i);
      WrapAdd(Sum(Landed(job, st, pair.value)), gain, Sum(Landed(job, Step(job, st, i), pair.value)));
    } else if Step(job, st, i).stages[i] == Finished {
      assert gain == 0 by { assert pair != own && pair.key == own.key; }
    }
  }

  lemma {:induction false} RunExact(job: Job, st: State, schedule: seq<nat>, pair: TopologyPair)
    requires WellFormed(job, st) && Runs(job, st, schedule) && CountsLanded(job, st, pair)
    ensures CountsLanded(job, Exec(job, st, schedule), pair)
    decreases |schedule|
  {
    if schedule != [] {
      StepExact(job, st, schedule[0], pair);
      RunExact(job, Step(job, st, schedule[0]), schedule[1..], pair);
    }
  }

  predicate AllFinished(st: State) {
    forall i | 0 <= i < |st.stages| :: st.stages[i] == Finished
  }

  lemma FinishedIsRecount(job: Job, st: State)
    requires WellFormed(job, st) && AllFinished(st)
    requires forall pair | pair in job.Pairs() :: CountsLanded(job, st, pair)
    ensures st.counters == Recount(job.infos, job.affinity, job.c, job.ns)
  {
    forall pair | pair in st.counters ensures st.counters[pair] == Wrap(job.Final(pair.value)) {
      assert CountsLanded(job, st, pair);
      assert Landed(job, st, pair.value) == Contributions(job.infos, job.c, job.ns, pair.value);
    }
  }

  /** Whatever the interleaving, once every task has finished the counters are the recount. */
  lemma EveryInterleavingIsExact(job: Job, schedule: seq<nat>)
    requires AllPresent(job.infos) && Runs(job, Initial(job), schedule)
    requires AllFinished(Exec(job, Initial(job), schedule))
    ensures Exec(job, Initial(job), schedule).counters == Recount(job.infos, job.affinity, job.c, job.ns)
  {
    forall pair | pair in job.Pairs() ensures CountsLanded(job, Exec(job, Initial(job), schedule), pair) {
      InitialExact(job, pair);
      RunExact(job, Initial(job), schedule, pair);
    }
    FinishedIsRecount(job, Exec(job, Initial(job), schedule));
  }

  /** In the middle of any run no counter has wrapped or passed its final value, if that value fits. */
  lemma NoPartialSumOverflows(job: Job, schedule: seq<nat>, pair: TopologyPair)
    requires AllPresent(job.infos) && Runs(job, Initial(job), schedule)
    requires pair in job.Pairs() && job.Final(pair.value) <= MAX_INT32
    ensures var st := Exec(job, Initial(job), schedule);
            st.counters[pair] == Sum(Landed(job, st, pair.value)) <= job.Final(pair.value)
  {
    InitialExact(job, pair);
    RunExact(job, Initial(job), schedule, pair);
    SumMonotone(Landed(job, Exec(job, Initial(job), schedule), pair.value),
                Contributions(job.infos, job.c, job.ns, pair.value));
  }

  /** The actions left: three for a task that has not begun. */
  function Work(st: State): seq<nat> {
    seq(|st.stages|, i requires 0 <= i < |st.stages| =>
      match st.stages[i]
      case Waiting => 3
      case Located => 2
      case Tallied(_) => 1
      case Finished => 0)
  }

  lemma StepUsesWork(job: Job, st: State, i: nat)
    requires WellFormed(job, st) && i < |st.stages| && st.stages[i] != Finished
    ensures Sum(Work(Step(job, st, i))) < Sum(Work(st))
  {
    var st' := Step(job, st, i);
    assert Work(st') == Work(st)[i := Work(st')[i]];
    SumUpdate(Work(st), i, Work(st')[i]);
  }

  /** Every run can be completed, and none takes more than three actions per node. */
  lemma {:induction false} RunsAreBounded(job: Job, st: State, schedule: seq<nat>)
    requires WellFormed(job, st) && Runs(job, st, schedule)
    ensures |schedule| + Sum(Work(Exec(job, st, schedule))) <= Sum(Work(st))
    decreases |schedule|
  {
    if schedule != [] {
      StepUsesWork(job, st, schedule[0]);
      RunsAreBounded(job, Step(job, st, schedule[0]), schedule[1..]);
    }
  }

  lemma {:induction false} SumOfThrees(xs: seq<nat>)
    requires forall i | 0 <= i < |xs| :: xs[i] == 3
    ensures Sum(xs) == 3 * |xs|
  {
    if xs != [] {
      SumOfThrees(xs[..|xs| - 1]);
    }
  }

  /** From the start no run takes more than three actions per node, and a run that takes as many has finished. */
  lemma RunsAreShort(job: Job, schedule: seq<nat>)
    requires AllPresent(job.infos) && Runs(job, Initial(job), schedule)
    ensures |schedule| <= 3 * |job.infos|
    ensures |schedule| == 3 * |job.infos| ==> AllFinished(Exec(job, Initial(job), schedule))
  {
    var end := Exec(job, Initial(job), schedule);
    SumOfThrees(Work(Initial(job)));
    RunsAreBounded(job, Initial(job), schedule);
    forall i | 0 <= i < |end.stages| && end.stages[i] != Finished ensures Sum(Work(end)) > 0 {
      StepUsesWork(job, end, i);
    }
  }

  lemma {:induction false} SomeScheduleFinishes(job: Job, st: State) returns (schedule: seq<nat>)
    requires WellFormed(job, st)
    ensures Runs(job, st, schedule)
    ensures AllFinished(Exec(job, st, schedule))
    decreases Sum(Work(st))
  {
    if i :| 0 <= i < |st.stages| && st.stages[i] != Finished {
      StepUsesWork(job, st, i);
      var rest := SomeScheduleFinishes(job, Step(job, st, i));
      schedule := [i] + rest;
      assert schedule[1..] == rest;
    } else {
      schedule := [];
    }
  }
}
