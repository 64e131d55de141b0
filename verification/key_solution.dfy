/**
  `Solution(instance, key)`: the first half of the key chooses a machine for
  every operation, the second half orders the jobs, and the walk over that
  order builds the schedule; the objective values come from
  `compute_value`. The main result: on a valid instance whose bounds were
  computed by the reader, every key of the right shape yields a schedule
  that passes the feasibility check.
 */
module KeySolutions {
  import opened Common
  import opened Times
  import opened Instances
  import opened Keys
  import opened Walk
  import opened WalkProofs
  import opened Solutions

  /** The buffers `Solution(instance)` leaves: nothing scheduled, no
      operation on any machine, zero-filled times. */
  function InitialState(inst: Instance): (st: State)
    requires WellFormed(inst)
    ensures Shaped(inst, st)
    ensures forall j :: 0 <= j < inst.numJobs ==> st.scheduled[j] == 0
    ensures forall m :: 0 <= m < inst.numMachines ==> st.sequence[m] == []
  {
    var e := EmptySolution(inst);
    State(seq(inst.numJobs, _ => 0), e.operationsOfMachine, e.startingTime, e.endingTime)
  }

  /** There is a job, and every job has an operation. */
  predicate JobsNonEmpty(inst: Instance)
  {
    && inst.numJobs > 0
    && forall j :: 0 <= j < |inst.numOperations| ==> inst.numOperations[j] > 0
  }

  /** Every processing time is listed by its machine. */
  predicate TimesListedByMachines(inst: Instance)
  {
    forall k :: k in inst.processingTime ==>
      k.2 < |inst.operationsOfMachine| && (k.0, k.1) in inst.operationsOfMachine[k.2]
  }

  /** The facts of a valid instance the schedule's feasibility rests on. */
  lemma ValidTimesPositive(inst: Instance)
    requires WellFormed(inst) && IsValid(inst)
    ensures forall k :: k in inst.processingTime ==> inst.processingTime[k] >= Eps
    ensures TimesNonNegative(inst.processingTime)
    ensures JobsNonEmpty(inst)
    ensures TimesListedByMachines(inst)
  {
  }

  lemma {:induction false} SumOfZeros(xs: seq<real>)
    requires forall i :: 0 <= i < |xs| ==> xs[i] == 0.0
    ensures Sum(xs) == 0.0
  {
    if |xs| > 0 {
      SumOfZeros(DropLast(xs));
    }
  }

  /** The walk may start from the empty buffers, where the invariant holds
      and no machine carries any work. */
  lemma InitialKeeps(inst: Instance, assign: seq<seq<nat>>)
    requires WellFormed(inst) && Assigned(inst, assign)
    ensures Sane(inst, assign, InitialState(inst))
    ensures Invariant(inst, assign, InitialState(inst))
    ensures TotalLoad(inst, assign, InitialState(inst)) == 0.0
  {
    var st := InitialState(inst);
    var loads := Loads(inst.processingTime, st.sequence);
    SumOfZeros(loads);
  }

  /** Every machine a key chooses has a processing time for its operation. */
  lemma KeyAssignment(inst: Instance, key: seq<real>)
    requires WellFormed(inst) && IsValid(inst) && KeyFits(inst, key)
    ensures Assigned(inst, AssignMachines(inst, key))
  {
    var a := AssignMachines(inst, key);
    forall j, o | 0 <= j < inst.numJobs && 0 <= o < inst.numOperations[j]
      ensures (j, o, a[j][o]) in inst.processingTime
    {
      var eligible := inst.machinesOfOperation[j][o];
      var i :| 0 <= i < |eligible| && eligible[i] == a[j][o];
    }
  }

  /** The release order takes every job once per operation. */
  lemma KeyOrderFeasible(inst: Instance, key: seq<real>)
    requires WellFormed(inst) && |key| == 2 * inst.totalNumOperations
    ensures Feasible(inst, InitialState(inst), ReleaseOrder(inst, key))
  {
    ReleaseOrderCounts(inst, key);
  }

  /** The buffers after the walk over the key's release order. */
  function Schedule(inst: Instance, key: seq<real>): (st: State)
    requires WellFormed(inst) && IsValid(inst) && KeyFits(inst, key)
    ensures Sane(inst, AssignMachines(inst, key), st)
    ensures forall j :: 0 <= j < inst.numJobs ==> st.scheduled[j] == inst.numOperations[j]
  {
    var assign := AssignMachines(inst, key);
    KeyAssignment(inst, key);
    InitialKeeps(inst, assign);
    KeyOrderFeasible(inst, key);
    ReleaseOrderCounts(inst, key);
    Run(inst, assign, InitialState(inst), ReleaseOrder(inst, key))
  }

  /** The walk from the empty buffers keeps its invariant. */
  lemma RunFromInitial(inst: Instance, assign: seq<seq<nat>>, order: seq<nat>)
    requires WellFormed(inst) && Sane(inst, assign, InitialState(inst))
    requires TimesNonNegative(inst.processingTime)
    requires Feasible(inst, InitialState(inst), order)
    ensures Invariant(inst, assign, Run(inst, assign, InitialState(inst), order))
  {
    InitialKeeps(inst, assign);
    RunKeeps(inst, assign, InitialState(inst), order);
  }

  /** The walk from the empty buffers adds at most one largest processing
      time per step to the total workload. */
  lemma RunFromInitialLoad(inst: Instance, assign: seq<seq<nat>>, order: seq<nat>)
    requires WellFormed(inst) && Sane(inst, assign, InitialState(inst))
    requires Feasible(inst, InitialState(inst), order)
    ensures TotalLoad(inst, assign, Run(inst, assign, InitialState(inst), order))
      <= Multiple(|order|, MaxTime(inst.processingTime, inst.processingTime.Keys))
  {
    var st0 := InitialState(inst);
    var c := MaxTime(inst.processingTime, inst.processingTime.Keys);
    InitialKeeps(inst, assign);
    RunLoadBound(inst, assign, st0, order);
    assert TotalLoad(inst, assign, st0) == 0.0;
  }

  /** Every operation of every job has been scheduled. */
  predicate AllScheduled(inst: Instance, st: State)
  {
    && |st.scheduled| == inst.numJobs
    && |inst.numOperations| == inst.numJobs
    && forall j :: 0 <= j < inst.numJobs ==> st.scheduled[j] == inst.numOperations[j]
  }

  /** A walk that has scheduled every operation and kept its invariant. */
  predicate Finished(inst: Instance, assign: seq<seq<nat>>, st: State)
  {
    && Sane(inst, assign, st)
    && Invariant(inst, assign, st)
    && AllScheduled(inst, st)
  }

  /** The walk over the key's release order finishes, and the total workload
      is at most one largest processing time per operation. */
  lemma ScheduleFinished(inst: Instance, key: seq<real>)
    requires WellFormed(inst) && IsValid(inst) && KeyFits(inst, key)
    ensures Finished(inst, AssignMachines(inst, key), Schedule(inst, key))
    ensures TotalLoad(inst, AssignMachines(inst, key), Schedule(inst, key))
      <= Multiple(inst.totalNumOperations, MaxTime(inst.processingTime, inst.processingTime.Keys))
  {
    var assign := AssignMachines(inst, key);
    var order := ReleaseOrder(inst, key);
    KeyAssignment(inst, key);
    KeyOrderFeasible(inst, key);
    ValidTimesPositive(inst);
    InitialKeeps(inst, assign);
    RunFromInitial(inst, assign, order);
    RunFromInitialLoad(inst, assign, order);
  }

  /** The solution holding a walk's buffers and their objective values. */
  function FromState(inst: Instance, assign: seq<seq<nat>>, st: State): (sol: Solution)
    requires JobsNonEmpty(inst) && Sane(inst, assign, st)
    ensures |sol.value| == NumSolutionObjectives
  {
    Solution(assign, st.sequence, st.start, st.end,
             ComputeValue(inst.processingTime, st.sequence, st.end))
  }

  /** `Solution(instance, key)`: every operation gets an eligible machine. */
  function SolutionFromKey(inst: Instance, key: seq<real>): (sol: Solution)
    requires WellFormed(inst) && IsValid(inst) && KeyFits(inst, key)
    ensures |sol.machineOfOperation| == inst.numJobs
    ensures forall j, o :: 0 <= j < inst.numJobs && 0 <= o < inst.numOperations[j] ==>
      o < |sol.machineOfOperation[j]| &&
      sol.machineOfOperation[j][o] in inst.machinesOfOperation[j][o]
    ensures |sol.value| == NumSolutionObjectives
  {
    ValidTimesPositive(inst);
    FromState(inst, AssignMachines(inst, key), Schedule(inst, key))
  }

  /** Each operation is in exactly one machine's sequence, its assigned
      machine's, and there only once. */
  lemma FinishedListsEachOnce(inst: Instance, assign: seq<seq<nat>>, st: State)
    requires Finished(inst, assign, st)
    ensures forall m: nat, p: Op :: m < inst.numMachines ==>
      (p in st.sequence[m] <==> OpInRange(inst.numOperations, p) && assign[p.0][p.1] == m)
    ensures forall m :: 0 <= m < inst.numMachines ==> Distinct(st.sequence[m])
  {
    forall m: nat, p: Op | m < inst.numMachines
      ensures p in st.sequence[m] <==> OpInRange(inst.numOperations, p) && assign[p.0][p.1] == m
    {
      if p in st.sequence[m] {
        var i :| 0 <= i < |st.sequence[m]| && st.sequence[m][i] == p;
        assert Done(st, st.sequence[m][i]);
      }
      if OpInRange(inst.numOperations, p) && assign[p.0][p.1] == m {
        assert (p.0, p.1) in st.sequence[assign[p.0][p.1]];
      }
    }
  }

  // ---------------------------------------------------------------------
  // The feasibility check, clause by clause, for any finished walk

  /** A machine's sequence holds only operations the instance lists for it. */
  lemma SequenceFits(inst: Instance, assign: seq<seq<nat>>, st: State, m: nat)
    requires WellFormed(inst)
    requires Sane(inst, assign, st) && NoRepeats(inst, assign, st)
    requires TimesListedByMachines(inst)
    requires m < inst.numMachines
    ensures |st.sequence[m]| <= |inst.operationsOfMachine[m]|
  {
    var ops := st.sequence[m];
    forall i | 0 <= i < |ops| ensures ops[i] in inst.operationsOfMachine[m] {
      var k: Triple := (ops[i].0, ops[i].1, m);
      assert k in inst.processingTime;
      assert (k.0, k.1) in inst.operationsOfMachine[k.2];
    }
    DistinctSubsetLength(ops, inst.operationsOfMachine[m]);
  }

  lemma FinishedSized(inst: Instance, assign: seq<seq<nat>>, st: State)
    requires WellFormed(inst) && JobsNonEmpty(inst)
    requires Sane(inst, assign, st) && NoRepeats(inst, assign, st)
    requires TimesListedByMachines(inst)
    ensures Sized(inst, FromState(inst, assign, st))
  {
    forall m | 0 <= m < inst.numMachines
      ensures |st.sequence[m]| <= |inst.operationsOfMachine[m]|
    {
      SequenceFits(inst, assign, st, m);
    }
  }

  lemma FinishedMatched(inst: Instance, assign: seq<seq<nat>>, st: State)
    requires WellFormed(inst) && JobsNonEmpty(inst)
    requires Sane(inst, assign, st) && Covered(inst, assign, st) && AllScheduled(inst, st)
    requires Sized(inst, FromState(inst, assign, st))
    ensures Matched(inst, FromState(inst, assign, st))
  {
    var sol := FromState(inst, assign, st);
    forall m, i | 0 <= m < inst.numMachines && 0 <= i < |sol.operationsOfMachine[m]|
      ensures OpInRange(inst.numOperations, sol.operationsOfMachine[m][i])
    {
      assert Done(st, st.sequence[m][i]);
    }
  }

  /** Starting times, ending times and the order along every job. */
  lemma FinishedTimedJobs(inst: Instance, assign: seq<seq<nat>>, st: State)
    requires WellFormed(inst) && JobsNonEmpty(inst)
    requires Sane(inst, assign, st) && Timed(inst, assign, st) && AllScheduled(inst, st)
    ensures var sol := FromState(inst, assign, st);
      && (forall j, o :: 0 <= j < inst.numJobs && 0 <= o < inst.numOperations[j] ==>
            && 0.0 <= sol.startingTime[j][o]
            && (j, o, sol.machineOfOperation[j][o]) in inst.processingTime
            && Abs(sol.startingTime[j][o] + inst.processingTime[(j, o, sol.machineOfOperation[j][o])]
                   - sol.endingTime[j][o]) <= Eps)
      && (forall j, o :: 0 <= j < inst.numJobs && 0 <= o && o + 1 < inst.numOperations[j] ==>
            sol.endingTime[j][o] <= sol.startingTime[j][o + 1])
  {
    var sol := FromState(inst, assign, st);
    forall j, o | 0 <= j < inst.numJobs && 0 <= o && o + 1 < inst.numOperations[j]
      ensures sol.endingTime[j][o] <= sol.startingTime[j][o + 1]
    {
      assert 0 <= o + 1 < st.scheduled[j];
    }
  }

  /** No overlap along any machine. */
  lemma FinishedTimedMachines(inst: Instance, assign: seq<seq<nat>>, st: State)
    requires WellFormed(inst) && JobsNonEmpty(inst)
    requires Sane(inst, assign, st) && MachineOrdered(inst, assign, st)
    requires Sized(inst, FromState(inst, assign, st)) && Matched(inst, FromState(inst, assign, st))
    ensures var sol := FromState(inst, assign, st);
      forall m, i :: 0 <= m < inst.numMachines && 0 <= i && i + 1 < |sol.operationsOfMachine[m]| ==>
        EndAt(inst, sol, sol.operationsOfMachine[m][i])
          <= StartAt(inst, sol, sol.operationsOfMachine[m][i + 1])
  {
    var sol := FromState(inst, assign, st);
    forall m, i | 0 <= m < inst.numMachines && 0 <= i && i + 1 < |sol.operationsOfMachine[m]|
      ensures EndAt(inst, sol, sol.operationsOfMachine[m][i])
        <= StartAt(inst, sol, sol.operationsOfMachine[m][i + 1])
    {
      assert 0 < i + 1 < |st.sequence[m]|;
    }
  }

  lemma FinishedTimely(inst: Instance, assign: seq<seq<nat>>, st: State)
    requires WellFormed(inst) && JobsNonEmpty(inst) && Finished(inst, assign, st)
    requires Sized(inst, FromState(inst, assign, st)) && Matched(inst, FromState(inst, assign, st))
    ensures Timely(inst, FromState(inst, assign, st))
  {
    FinishedTimedJobs(inst, assign, st);
    FinishedTimedMachines(inst, assign, st);
  }

  /** The later of two times, the first of them non-negative, is one of
      them; the second is 0 at a machine's front. */
  lemma LaterOfTwo(s: real, ready: real, previous: real, i: nat)
    requires s == Max(ready, previous) && ready >= 0.0
    requires i == 0 ==> previous == 0.0
    ensures Abs(s - ready) <= Eps || (i > 0 && Abs(s - previous) <= Eps)
  {
  }

  /** The walk's start of position `i` of machine `m`, in the terms of the
      no-idle check. */
  lemma StartIsLater(inst: Instance, assign: seq<seq<nat>>, st: State, m: nat, i: nat)
    requires Sane(inst, assign, st) && Timed(inst, assign, st) && SemiActive(inst, assign, st)
    requires TimesNonNegative(inst.processingTime)
    requires m < inst.numMachines && i < |st.sequence[m]|
    ensures var p := st.sequence[m][i];
      && p.0 < |st.end| && (p.1 > 0 ==> p.1 - 1 < |st.end[p.0]|)
      && JobReady(st, p) >= 0.0
      && (i == 0 ==> PreviousEnd(inst, assign, st, m, i) == 0.0)
      && st.start[p.0][p.1] == Max(JobReady(st, p), PreviousEnd(inst, assign, st, m, i))
  {
    var p := st.sequence[m][i];
    assert Done(st, p);
    if p.1 > 0 {
      assert Done(st, (p.0, p.1 - 1));
      EndsNonNegative(inst, assign, st);
      assert EndOf(inst, st, (p.0, p.1 - 1)) >= 0.0;
    }
  }

  /** The solution's buffers are the walk's. */
  predicate Holds(sol: Solution, st: State)
  {
    && sol.operationsOfMachine == st.sequence
    && sol.startingTime == st.start
    && sol.endingTime == st.end
  }

  /** Each operation starts when its job's previous operation ends or when
      its machine's previous operation ends. */
  lemma FinishedPasses(inst: Instance, assign: seq<seq<nat>>, st: State, sol: Solution, m: nat, i: nat)
    requires WellFormed(inst) && Sane(inst, assign, st)
    requires Sized(inst, sol) && Matched(inst, sol) && Holds(sol, st)
    requires m < inst.numMachines && i < |st.sequence[m]|
    requires var p := st.sequence[m][i];
      && p.0 < |st.end| && (p.1 > 0 ==> p.1 - 1 < |st.end[p.0]|)
      && JobReady(st, p) >= 0.0
      && (i == 0 ==> PreviousEnd(inst, assign, st, m, i) == 0.0)
      && st.start[p.0][p.1] == Max(JobReady(st, p), PreviousEnd(inst, assign, st, m, i))
    ensures Passes(inst, sol, m, i)
  {
    var p := st.sequence[m][i];
    var previous := PreviousEnd(inst, assign, st, m, i);
    assert i > 0 ==> previous == EndAt(inst, sol, sol.operationsOfMachine[m][i - 1]);
    assert JobReady(st, p) == JobReadyAt(inst, sol, p);
    LaterOfTwo(StartAt(inst, sol, p), JobReady(st, p), previous, i);
  }

  lemma FinishedNoIdle(inst: Instance, assign: seq<seq<nat>>, st: State)
    requires WellFormed(inst) && JobsNonEmpty(inst) && Finished(inst, assign, st)
    requires TimesNonNegative(inst.processingTime)
    requires Sized(inst, FromState(inst, assign, st)) && Matched(inst, FromState(inst, assign, st))
    ensures NoIdle(inst, FromState(inst, assign, st))
  {
    var sol := FromState(inst, assign, st);
    forall m: nat, i: nat | m < inst.numMachines && i < |sol.operationsOfMachine[m]|
      ensures Passes(inst, sol, m, i)
    {
      StartIsLater(inst, assign, st, m, i);
      FinishedPasses(inst, assign, st, sol, m, i);
    }
  }

  // ---------------------------------------------------------------------
  // The objective values

  /** Along a job the ending times grow. */
  lemma {:induction false} EndsGrow(inst: Instance, assign: seq<seq<nat>>, st: State, j: nat, o: nat)
    requires Sane(inst, assign, st) && Timed(inst, assign, st)
    requires TimesNonNegative(inst.processingTime)
    requires j < inst.numJobs && o < st.scheduled[j]
    ensures st.end[j][o] <= st.end[j][st.scheduled[j] - 1]
    decreases st.scheduled[j] - o
  {
    if o + 1 < st.scheduled[j] {
      EndsGrow(inst, assign, st, j, o + 1);
      assert st.end[j][o + 1] == st.start[j][o + 1] + inst.processingTime[(j, o + 1, assign[j][o + 1])];
    }
  }

  /** The makespan is at most the total workload. */
  lemma MakespanWithinTotal(inst: Instance, assign: seq<seq<nat>>, st: State)
    requires JobsNonEmpty(inst)
    requires Sane(inst, assign, st) && EndsWithinTotal(inst, assign, st) && AllScheduled(inst, st)
    requires TimesNonNegative(inst.processingTime)
    ensures var v := FromState(inst, assign, st).value;
      && 0.0 <= v[2] <= v[1] && v[0] <= v[1]
      && v[1] == TotalLoad(inst, assign, st)
  {
    var v := FromState(inst, assign, st).value;
    if v[0] != 0.0 {
      var j :| 0 <= j < |st.end| && Last(st.end[j]) == v[0];
      assert 0 <= |st.end[j]| - 1 < st.scheduled[j];
    }
  }

  /** Every machine's workload is at most any non-negative time after every
      job's completion. */
  lemma LoadsBelow(inst: Instance, assign: seq<seq<nat>>, st: State, c: real)
    requires Sane(inst, assign, st) && Timed(inst, assign, st) && LoadsCovered(inst, assign, st)
    requires AllScheduled(inst, st) && JobsNonEmpty(inst)
    requires TimesNonNegative(inst.processingTime)
    requires c >= 0.0
    requires forall j :: 0 <= j < inst.numJobs ==> st.end[j][inst.numOperations[j] - 1] <= c
    ensures forall m :: 0 <= m < inst.numMachines ==> Load(inst.processingTime, m, st.sequence[m]) <= c
  {
    forall m | 0 <= m < inst.numMachines
      ensures Load(inst.processingTime, m, st.sequence[m]) <= c
    {
      assert Load(inst.processingTime, m, st.sequence[m]) <= MachineReady(inst, assign, st, m);
      if |st.sequence[m]| > 0 {
        var p := Last(st.sequence[m]);
        assert Done(st, p);
        EndsGrow(inst, assign, st, p.0, p.1);
      }
    }
  }

  /** Every machine's workload is at most the makespan. */
  lemma LoadsWithinMakespan(inst: Instance, assign: seq<seq<nat>>, st: State)
    requires JobsNonEmpty(inst)
    requires Sane(inst, assign, st) && Timed(inst, assign, st) && LoadsCovered(inst, assign, st)
    requires AllScheduled(inst, st)
    requires TimesNonNegative(inst.processingTime)
    ensures var v := FromState(inst, assign, st).value;
      v[2] <= v[0]
  {
    var v := FromState(inst, assign, st).value;
    assert forall j :: 0 <= j < inst.numJobs ==> st.end[j][inst.numOperations[j] - 1] == Last(st.end[j]);
    LoadsBelow(inst, assign, st, v[0]);
  }

  /** What the bounds of an instance with at least one job promise. */
  lemma BoundFacts(inst: Instance)
    requires BoundsComputed(inst) && inst.numJobs > 0
    requires TimesNonNegative(inst.processingTime)
    ensures var b := inst.primalBound;
      && |b| == 4
      && b[0] == Multiple(inst.totalNumOperations, MaxTime(inst.processingTime, inst.processingTime.Keys))
      && b[0] <= b[1]
      && 0.0 <= b[2]
      && forall m :: 0 <= m < inst.numMachines ==> WorkingTime(inst.processingTime, m) <= b[2]
  {
    var b := inst.primalBound;
    PrimalBoundNonNegative(inst.processingTime, inst.numJobs, inst.numMachines, inst.totalNumOperations);
    MultipleAtLeastOnce(inst.numJobs, b[0]);
  }

  /** The three values stay within the bounds `compute_primal_bound` derives,
      once the total workload is within one largest time per operation. */
  lemma ValuesWithinBounds(inst: Instance, v: seq<real>, total: real)
    requires BoundsComputed(inst) && inst.numJobs > 0
    requires TimesNonNegative(inst.processingTime)
    requires |v| == NumSolutionObjectives
    requires v[0] <= v[1] && v[1] == total
    requires total <= Multiple(inst.totalNumOperations, MaxTime(inst.processingTime, inst.processingTime.Keys))
    requires v[2] == 0.0 || exists m: nat :: m < inst.numMachines && v[2] <= WorkingTime(inst.processingTime, m)
    ensures forall i :: 0 <= i < NumSolutionObjectives ==> v[i] <= inst.primalBound[i]
  {
    BoundFacts(inst);
  }

  /** The largest workload is some machine's, which is at most its working time. */
  lemma LargestLoadWithinWorkingTime(inst: Instance, assign: seq<seq<nat>>, st: State)
    requires JobsNonEmpty(inst)
    requires Sane(inst, assign, st) && NoRepeats(inst, assign, st)
    requires TimesNonNegative(inst.processingTime)
    ensures var v := FromState(inst, assign, st).value;
      v[2] == 0.0 || exists m: nat :: m < inst.numMachines && v[2] <= WorkingTime(inst.processingTime, m)
  {
    var v := FromState(inst, assign, st).value;
    if v[2] != 0.0 {
      var m :| 0 <= m < |st.sequence| && Load(inst.processingTime, m, st.sequence[m]) == v[2];
      LoadAtMostWorkingTime(inst.processingTime, m, st.sequence[m]);
    }
  }

  lemma FinishedValues(inst: Instance, assign: seq<seq<nat>>, st: State)
    requires WellFormed(inst) && JobsNonEmpty(inst) && Finished(inst, assign, st)
    requires TimesNonNegative(inst.processingTime)
    requires BoundsComputed(inst)
    requires TotalLoad(inst, assign, st)
      <= Multiple(inst.totalNumOperations, MaxTime(inst.processingTime, inst.processingTime.Keys))
    requires Sized(inst, FromState(inst, assign, st))
    ensures ValuesBounded(inst, FromState(inst, assign, st))
  {
    MakespanWithinTotal(inst, assign, st);
    LoadsWithinMakespan(inst, assign, st);
    LargestLoadWithinWorkingTime(inst, assign, st);
    ValuesWithinBounds(inst, FromState(inst, assign, st).value, TotalLoad(inst, assign, st));
  }

  /** A finished walk within the workload bound passes every clause of the
      feasibility check. */
  lemma FinishedFeasible(inst: Instance, assign: seq<seq<nat>>, st: State)
    requires WellFormed(inst) && JobsNonEmpty(inst) && Finished(inst, assign, st)
    requires TimesNonNegative(inst.processingTime) && TimesListedByMachines(inst)
    requires BoundsComputed(inst)
    requires TotalLoad(inst, assign, st)
      <= Multiple(inst.totalNumOperations, MaxTime(inst.processingTime, inst.processingTime.Keys))
    ensures Sized(inst, FromState(inst, assign, st))
    ensures Matched(inst, FromState(inst, assign, st))
    ensures Timely(inst, FromState(inst, assign, st))
    ensures NoIdle(inst, FromState(inst, assign, st))
    ensures ValuesBounded(inst, FromState(inst, assign, st))
  {
    FinishedSized(inst, assign, st);
    FinishedMatched(inst, assign, st);
    FinishedTimely(inst, assign, st);
    FinishedNoIdle(inst, assign, st);
    FinishedValues(inst, assign, st);
  }

  /** Every key of the decoder's shape yields a schedule that passes the
      feasibility check, as written and as intended. */
  lemma KeySolutionFeasible(inst: Instance, key: seq<real>)
    requires WellFormed(inst) && IsValid(inst) && BoundsComputed(inst) && KeyFits(inst, key)
    ensures IsFeasibleIntended(inst, SolutionFromKey(inst, key))
    ensures IsFeasible(inst, SolutionFromKey(inst, key))
  {
    ScheduleFinished(inst, key);
    ValidTimesPositive(inst);
    FinishedFeasible(inst, AssignMachines(inst, key), Schedule(inst, key));
    IntendedIsFeasible(inst, SolutionFromKey(inst, key));
  }
}
