/**
  A schedule of an instance: the machine of every operation, the operations
  of every machine in processing order, the starting and ending times, and
  the three objective values (makespan, total workload, largest machine
  workload). Also the dominance test of objective vectors, the objective
  computation, `init`, and the feasibility check.
 */
module Solutions {
  import opened Common
  import opened Times
  import opened Instances

  datatype Solution = Solution(
    machineOfOperation: seq<seq<nat>>,
    operationsOfMachine: seq<seq<Op>>,
    startingTime: seq<seq<real>>,
    endingTime: seq<seq<real>>,
    value: seq<real>)

  /** Number of objectives of a solution (the decoder computes one more). */
  const NumSolutionObjectives: nat := 3

  // ---------------------------------------------------------------------
  // Dominance

  /** `a` dominates `b`: both have three entries, `a` is nowhere worse than
      `b` by more than epsilon, and somewhere better by more than epsilon. */
  predicate Dominates(a: seq<real>, b: seq<real>)
  {
    && |a| == NumSolutionObjectives
    && |b| == NumSolutionObjectives
    && (forall i :: 0 <= i < |a| ==> a[i] <= b[i] + Eps)
    && (exists i :: 0 <= i < |a| && a[i] < b[i] - Eps)
  }

  /** The two loops of `Solution::dominates`. */
  method CheckDominates(a: seq<real>, b: seq<real>) returns (r: bool)
    ensures r <==> Dominates(a, b)
    ensures (|a| != NumSolutionObjectives || |b| != NumSolutionObjectives) ==> !r
  {
    if |a| != 3 || |b| != 3 {
      return false;
    }
    var i := 0;
    while i < |a|
      invariant 0 <= i <= |a|
      invariant forall k :: 0 <= k < i ==> a[k] <= b[k] + Eps
    {
      if a[i] > b[i] + Eps {
        return false;
      }
      i := i + 1;
    }
    i := 0;
    while i < |a|
      invariant 0 <= i <= |a|
      invariant forall k :: 0 <= k < i ==> !(a[k] < b[k] - Eps)
    {
      if a[i] < b[i] - Eps {
        return true;
      }
      i := i + 1;
    }
    return false;
  }

  lemma DominatesIrreflexive(a: seq<real>)
    ensures !Dominates(a, a)
  {
  }

  /** Two vectors never dominate each other, epsilon tolerance included. */
  lemma DominatesAsymmetric(a: seq<real>, b: seq<real>)
    requires Dominates(a, b)
    ensures !Dominates(b, a)
  {
    var k :| 0 <= k < |a| && a[k] < b[k] - Eps;
    assert !(b[k] <= a[k] + Eps);
  }

  // ---------------------------------------------------------------------
  // Objective values

  /** The ending time of every job's last operation. */
  function LastEnds(ends: seq<seq<real>>): (r: seq<real>)
    requires forall j :: 0 <= j < |ends| ==> |ends[j]| > 0
    ensures |r| == |ends|
    ensures forall j :: 0 <= j < |ends| ==> r[j] == Last(ends[j])
  {
    seq(|ends|, j requires 0 <= j < |ends| => Last(ends[j]))
  }

  /** `compute_value`: the makespan is the latest job completion (at least 0),
      the total workload sums the machine workloads, and the largest
      workload bounds each of them and, for non-negative times, is at most
      their sum. */
  function ComputeValue(pt: map<Triple, real>, sequences: seq<seq<Op>>, ends: seq<seq<real>>): (v: seq<real>)
    requires AllListed(pt, sequences)
    requires forall j :: 0 <= j < |ends| ==> |ends[j]| > 0
    ensures |v| == NumSolutionObjectives
    ensures 0.0 <= v[0]
    ensures forall j :: 0 <= j < |ends| ==> Last(ends[j]) <= v[0]
    ensures v[0] == 0.0 || exists j :: 0 <= j < |ends| && Last(ends[j]) == v[0]
    ensures v[1] == Sum(Loads(pt, sequences))
    ensures forall m :: 0 <= m < |sequences| ==> Load(pt, m, sequences[m]) <= v[2]
    ensures v[2] == 0.0 || exists m :: 0 <= m < |sequences| && Load(pt, m, sequences[m]) == v[2]
    ensures TimesNonNegative(pt) ==> 0.0 <= v[2] <= v[1]
  {
    var loads := Loads(pt, sequences);
    var v := [Max0(LastEnds(ends)), Sum(loads), Max0(loads)];
    if TimesNonNegative(pt) then
      LoadsNonNegative(pt, sequences);
      Max0AtMostSum(loads);
      v
    else v
  }

  // ---------------------------------------------------------------------
  // Construction

  /** `Solution(instance)`: buffers sized for the instance, zero-filled, no
      operation on any machine, three objective values. */
  function EmptySolution(inst: Instance): (s: Solution)
    requires WellFormed(inst)
    ensures |s.machineOfOperation| == |s.startingTime| == |s.endingTime| == inst.numJobs
    ensures forall j :: 0 <= j < inst.numJobs ==>
      && |s.machineOfOperation[j]| == inst.numOperations[j]
      && |s.startingTime[j]| == inst.numOperations[j]
      && |s.endingTime[j]| == inst.numOperations[j]
    ensures |s.operationsOfMachine| == inst.numMachines
    ensures forall m :: 0 <= m < inst.numMachines ==> s.operationsOfMachine[m] == []
    ensures |s.value| == NumSolutionObjectives
    ensures forall j, o :: 0 <= j < inst.numJobs && 0 <= o < inst.numOperations[j] ==>
      s.machineOfOperation[j][o] == 0 && s.startingTime[j][o] == 0.0 && s.endingTime[j][o] == 0.0
  {
    var J := inst.numJobs;
    Solution(
      seq(J, j requires 0 <= j < J => seq(inst.numOperations[j], _ => 0)),
      seq(inst.numMachines, _ => []),
      seq(J, j requires 0 <= j < J => seq(inst.numOperations[j], _ => 0.0)),
      seq(J, j requires 0 <= j < J => seq(inst.numOperations[j], _ => 0.0)),
      seq(NumSolutionObjectives, _ => 0.0))
  }

  /** Every (job, operation) pair in job-major order. */
  function JobMajor(numOperations: seq<nat>): (r: seq<Op>)
    ensures |r| == NatSum(numOperations)
    ensures forall i :: 0 <= i < |r| ==> OpInRange(numOperations, r[i])
  {
    if |numOperations| == 0 then []
    else
      var front := DropLast(numOperations);
      var rest := JobMajor(front);
      assert forall i :: 0 <= i < |rest| ==> OpInRange(numOperations, rest[i]);
      rest + seq(Last(numOperations), o => (|numOperations| - 1, o))
  }

  /** Each pair occurs in the job-major order. */
  lemma {:induction false} JobMajorComplete(numOperations: seq<nat>, p: Op)
    requires OpInRange(numOperations, p)
    ensures p in JobMajor(numOperations)
  {
    var front := DropLast(numOperations);
    if p.0 < |front| {
      assert front[p.0] == numOperations[p.0];
      JobMajorComplete(front, p);
    } else {
      var block := seq(Last(numOperations), o => (|numOperations| - 1, o));
      assert block[p.1] == p;
    }
  }

  /** Job-major order has no repeats. */
  lemma {:induction false} JobMajorDistinct(numOperations: seq<nat>)
    ensures Distinct(JobMajor(numOperations))
  {
    if |numOperations| > 0 {
      JobMajorDistinct(DropLast(numOperations));
    }
  }

  /** `assign` gives a machine for every pair of `ops`. */
  predicate Covers(assign: seq<seq<nat>>, ops: seq<Op>)
  {
    forall i :: 0 <= i < |ops| ==> ops[i].0 < |assign| && ops[i].1 < |assign[ops[i].0]|
  }

  /** The pairs of `ops`, in order, that `assign` puts on machine `m`. */
  function OnMachine(assign: seq<seq<nat>>, ops: seq<Op>, m: nat): (r: seq<Op>)
    requires Covers(assign, ops)
  {
    if |ops| == 0 then []
    else
      var p := Last(ops);
      OnMachine(assign, DropLast(ops), m) + (if assign[p.0][p.1] == m then [p] else [])
  }

  /** A pair is on machine `m` exactly when it is in `ops` and assigned to `m`. */
  lemma {:induction false} OnMachineMembers(assign: seq<seq<nat>>, ops: seq<Op>, m: nat, p: Op)
    requires Covers(assign, ops)
    ensures p in OnMachine(assign, ops, m) <==> p in ops && assign[p.0][p.1] == m
  {
    if |ops| > 0 {
      OnMachineMembers(assign, DropLast(ops), m, p);
      assert ops == DropLast(ops) + [Last(ops)];
    }
  }

  /** The `push_back` loop of `init` over `ops`: each pair goes to the end of
      its machine's sequence, so machine `m` receives exactly the pairs of
      `ops` assigned to it, in the order of `ops`. */
  function Distribute(assign: seq<seq<nat>>, ops: seq<Op>, numMachines: nat): (r: seq<seq<Op>>)
    requires Covers(assign, ops)
    requires forall i :: 0 <= i < |ops| ==> assign[ops[i].0][ops[i].1] < numMachines
    ensures |r| == numMachines
    ensures forall m :: 0 <= m < numMachines ==> r[m] == OnMachine(assign, ops, m)
  {
    if |ops| == 0 then seq(numMachines, _ => [])
    else
      var p := Last(ops);
      var r := Distribute(assign, DropLast(ops), numMachines);
      var m := assign[p.0][p.1];
      r[m := r[m] + [p]]
  }

  /** A machine index for every operation of the instance. */
  predicate AssignShaped(inst: Instance, assign: seq<seq<nat>>)
  {
    && |inst.numOperations| == inst.numJobs
    && |assign| == inst.numJobs
    && (forall j :: 0 <= j < inst.numJobs ==> |assign[j]| == inst.numOperations[j])
  }

  /** Assignment and starting times of the instance's shape. */
  predicate Conforms(inst: Instance, assign: seq<seq<nat>>, start: seq<seq<real>>)
  {
    && AssignShaped(inst, assign)
    && |start| == inst.numJobs
    && (forall j :: 0 <= j < inst.numJobs ==> |start[j]| == inst.numOperations[j])
  }

  /** Every operation's assigned machine has a processing time for it. */
  predicate TimesListed(inst: Instance, assign: seq<seq<nat>>)
    requires AssignShaped(inst, assign)
  {
    forall j, o :: 0 <= j < inst.numJobs && 0 <= o < inst.numOperations[j] ==>
      (j, o, assign[j][o]) in inst.processingTime
  }

  /** `e` holds, for every operation, its starting time plus its processing
      time on the assigned machine. */
  ghost predicate EndsAfterStarts(inst: Instance, assign: seq<seq<nat>>, start: seq<seq<real>>, e: seq<seq<real>>)
    requires Conforms(inst, assign, start) && TimesListed(inst, assign)
  {
    && |e| == inst.numJobs
    && (forall j :: 0 <= j < inst.numJobs ==> |e[j]| == inst.numOperations[j])
    && (forall j, o :: 0 <= j < inst.numJobs && 0 <= o < inst.numOperations[j] ==>
          e[j][o] - start[j][o] == inst.processingTime[(j, o, assign[j][o])])
  }

  /** `s` has one list per machine, holding exactly the operations assigned
      to that machine, each once. */
  ghost predicate ListsAssigned(inst: Instance, assign: seq<seq<nat>>, s: seq<seq<Op>>)
    requires AssignShaped(inst, assign)
  {
    && |s| == inst.numMachines
    && (forall m, p: Op :: 0 <= m < inst.numMachines ==>
          (p in s[m] <==> OpInRange(inst.numOperations, p) && assign[p.0][p.1] == m))
    && (forall m :: 0 <= m < inst.numMachines ==> Distinct(s[m]))
  }

  /** What `init` leaves in a solution built from `assign` and `start`: the
      assignment and starting times are kept, ending times are starting
      times plus processing times, each machine's sequence lists exactly
      its operations, once each and in job-major order, and the objective
      values are those `compute_value` gives for these sequences and ends. */
  ghost predicate Initialised(inst: Instance, assign: seq<seq<nat>>, start: seq<seq<real>>, s: Solution)
    requires Conforms(inst, assign, start) && TimesListed(inst, assign)
    requires forall j :: 0 <= j < inst.numJobs ==> inst.numOperations[j] > 0
  {
    && s.machineOfOperation == assign
    && s.startingTime == start
    && EndsAfterStarts(inst, assign, start, s.endingTime)
    && ListsAssigned(inst, assign, s.operationsOfMachine)
    && (forall m :: 0 <= m < inst.numMachines ==>
          s.operationsOfMachine[m] == OnMachine(assign, JobMajor(inst.numOperations), m))
    && AllListed(inst.processingTime, s.operationsOfMachine)
    && |s.value| == NumSolutionObjectives
    && s.value == ComputeValue(inst.processingTime, s.operationsOfMachine, s.endingTime)
  }

  /** `init`: ending times are starting times plus processing times, each
      machine's sequence lists its operations in job-major order, and the
      objective values are computed. A missing processing time (which is
      also the case for a machine index out of range) makes the lookup
      throw. Every job must have an operation (`back()` is read). */
  function Init(inst: Instance, assign: seq<seq<nat>>, start: seq<seq<real>>): (r: Result<Solution>)
    requires WellFormed(inst)
    requires Conforms(inst, assign, start)
    requires forall j :: 0 <= j < inst.numJobs ==> inst.numOperations[j] > 0
    ensures r.Ok? <==> TimesListed(inst, assign)
    ensures r.Err? ==> r.error == MissingProcessingTime
    ensures r.Ok? ==> Initialised(inst, assign, start, r.value)
  {
    if !TimesListed(inst, assign) then Err(MissingProcessingTime)
    else
      var sequences := InitSequences(inst, assign);
      var ends := EndTimes(inst, assign, start);
      Ok(Solution(assign, sequences, start, ends, ComputeValue(inst.processingTime, sequences, ends)))
  }

  /** The machine sequences `init` builds: each machine lists the operations
      assigned to it, once each, in job-major order. */
  function InitSequences(inst: Instance, assign: seq<seq<nat>>): (s: seq<seq<Op>>)
    requires WellFormed(inst) && AssignShaped(inst, assign) && TimesListed(inst, assign)
    ensures AllListed(inst.processingTime, s)
    ensures ListsAssigned(inst, assign, s)
    ensures forall m :: 0 <= m < inst.numMachines ==>
      s[m] == OnMachine(assign, JobMajor(inst.numOperations), m)
  {
    var ops := JobMajor(inst.numOperations);
    assert Covers(assign, ops);
    var sequences := Distribute(assign, ops, inst.numMachines);
    InitFacts(inst, assign, ops, sequences);
    sequences
  }

  /** Ending time = starting time + processing time on the assigned machine. */
  function EndTimes(inst: Instance, assign: seq<seq<nat>>, start: seq<seq<real>>): (e: seq<seq<real>>)
    requires Conforms(inst, assign, start) && TimesListed(inst, assign)
    ensures EndsAfterStarts(inst, assign, start, e)
  {
    seq(inst.numJobs, j requires 0 <= j < inst.numJobs =>
      seq(inst.numOperations[j], o requires 0 <= o < inst.numOperations[j] =>
        start[j][o] + inst.processingTime[(j, o, assign[j][o])]))
  }

  lemma InitFacts(inst: Instance, assign: seq<seq<nat>>, ops: seq<Op>, sequences: seq<seq<Op>>)
    requires WellFormed(inst) && AssignShaped(inst, assign) && TimesListed(inst, assign)
    requires ops == JobMajor(inst.numOperations)
    requires Covers(assign, ops)
    requires forall i :: 0 <= i < |ops| ==> assign[ops[i].0][ops[i].1] < inst.numMachines
    requires sequences == Distribute(assign, ops, inst.numMachines)
    ensures AllListed(inst.processingTime, sequences)
    ensures ListsAssigned(inst, assign, sequences)
  {
    forall m, p: Op | 0 <= m < inst.numMachines
      ensures p in sequences[m] <==> OpInRange(inst.numOperations, p) && assign[p.0][p.1] == m
    {
      OnMachineMembers(assign, ops, m, p);
      if OpInRange(inst.numOperations, p) {
        JobMajorComplete(inst.numOperations, p);
      }
    }
    JobMajorDistinct(inst.numOperations);
    forall m | 0 <= m < inst.numMachines ensures Distinct(sequences[m]) {
      OnMachineDistinct(assign, ops, m);
    }
    forall m | 0 <= m < inst.numMachines ensures ListedOn(inst.processingTime, m, sequences[m]) {
      forall i | 0 <= i < |sequences[m]|
        ensures (sequences[m][i].0, sequences[m][i].1, m) in inst.processingTime
      {
        assert sequences[m][i] in sequences[m];
      }
    }
  }

  lemma {:induction false} OnMachineDistinct(assign: seq<seq<nat>>, ops: seq<Op>, m: nat)
    requires Covers(assign, ops) && Distinct(ops)
    ensures Distinct(OnMachine(assign, ops, m))
  {
    if |ops| > 0 {
      var front := DropLast(ops);
      OnMachineDistinct(assign, front, m);
      OnMachineMembers(assign, front, m, Last(ops));
      assert Last(ops) !in front;
    }
  }

  // ---------------------------------------------------------------------
  // The constructor from an assignment and starting times

  /** `Solution(instance, machine_of_operation, starting_time_of_operation)`
      as written: the delegated `Solution(instance)` zero-fills the buffers
      and the arguments are never copied in, so `init` schedules every
      operation on machine 0 starting at time 0. */
  function ExplicitAsWritten(inst: Instance, assign: seq<seq<nat>>, start: seq<seq<real>>): (r: Result<Solution>)
    requires WellFormed(inst)
    requires forall j :: 0 <= j < inst.numJobs ==> inst.numOperations[j] > 0
    ensures r.Ok? <==> TimesListed(inst, EmptySolution(inst).machineOfOperation)
    ensures r.Ok? ==>
      && r.value.machineOfOperation == EmptySolution(inst).machineOfOperation
      && r.value.startingTime == EmptySolution(inst).startingTime
      && Initialised(inst, EmptySolution(inst).machineOfOperation, EmptySolution(inst).startingTime, r.value)
  {
    var empty := EmptySolution(inst);
    Init(inst, empty.machineOfOperation, empty.startingTime)
  }

  /** The same constructor with its arguments stored before `init` runs. */
  function ExplicitSolution(inst: Instance, assign: seq<seq<nat>>, start: seq<seq<real>>): (r: Result<Solution>)
    requires WellFormed(inst)
    requires Conforms(inst, assign, start)
    requires forall j :: 0 <= j < inst.numJobs ==> inst.numOperations[j] > 0
    ensures r.Ok? <==> TimesListed(inst, assign)
    ensures r.Ok? ==> r.value.machineOfOperation == assign && r.value.startingTime == start
    ensures r.Ok? ==> Initialised(inst, assign, start, r.value)
  {
    Init(inst, assign, start)
  }

  /** One job with one operation that only machine 1 can process. */
  function OneOperationOnMachineOne(): (inst: Instance)
    ensures WellFormed(inst)
  {
    Instance(map[(0, 0, 1) := 1.0], 1, [1], 1, 2, [[[1]]], [[], [(0, 0)]], 4, [1.0, 1.0, 1.0, 1.0])
  }

  lemma OneOperationValid()
    ensures IsValid(OneOperationOnMachineOne())
  {
    OneOperationEligible();
    OneOperationListed();
    OneOperationTimes();
    IsValidFrom(OneOperationOnMachineOne());
  }

  lemma OneOperationEligible()
    ensures var inst := OneOperationOnMachineOne();
      var mo: seq<seq<seq<nat>>> := inst.machinesOfOperation;
      forall j, o, i :: 0 <= j < 1 && 0 <= o < |mo[j]| && 0 <= i < |mo[j][o]| ==>
        (j, o) in inst.operationsOfMachine[mo[j][o][i]] && (j, o, mo[j][o][i]) in inst.processingTime
  {
    assert OneOperationOnMachineOne().operationsOfMachine[1][0] == (0, 0);
  }

  lemma OneOperationListed()
    ensures var inst := OneOperationOnMachineOne();
      var om: seq<seq<Op>> := inst.operationsOfMachine;
      forall m, i :: 0 <= m < 2 && 0 <= i < |om[m]| ==>
        m in inst.machinesOfOperation[om[m][i].0][om[m][i].1] && (om[m][i].0, om[m][i].1, m) in inst.processingTime
  {
    assert OneOperationOnMachineOne().machinesOfOperation[0][0][0] == 1;
  }

  lemma OneOperationTimes()
    ensures var inst := OneOperationOnMachineOne();
      var pt := inst.processingTime;
      forall k :: k in pt ==>
        && !(pt[k] < Eps)
        && k.2 in inst.machinesOfOperation[k.0][k.1]
        && (k.0, k.1) in inst.operationsOfMachine[k.2]
  {
    var inst := OneOperationOnMachineOne();
    assert inst.processingTime.Keys == {(0, 0, 1)};
    assert inst.machinesOfOperation[0][0][0] == 1;
    assert inst.operationsOfMachine[1][0] == (0, 0);
  }

  /** On that instance, the assignment "machine 1 at time 0" is accepted by
      the corrected constructor, while the constructor as written looks up
      the time of machine 0, which does not exist, and throws. */
  lemma ExplicitIgnoresArguments()
    ensures var inst := OneOperationOnMachineOne();
      && ExplicitAsWritten(inst, [[1]], [[0.0]]).Err?
      && ExplicitSolution(inst, [[1]], [[0.0]]).Ok?
  {
    var inst := OneOperationOnMachineOne();
    var empty := EmptySolution(inst);
    assert empty.machineOfOperation[0][0] == 0;
    assert !TimesListed(inst, empty.machineOfOperation);
  }

  // ---------------------------------------------------------------------
  // Feasibility

  /** The size checks of `is_feasible`. */
  predicate Sized(inst: Instance, sol: Solution)
    requires WellFormed(inst)
  {
    && |sol.machineOfOperation| == inst.numJobs
    && |sol.operationsOfMachine| == inst.numMachines
    && |sol.startingTime| == inst.numJobs
    && |sol.endingTime| == inst.numJobs
    && |sol.value| == NumSolutionObjectives
    && (forall j :: 0 <= j < inst.numJobs ==>
          && |sol.machineOfOperation[j]| == inst.numOperations[j]
          && |sol.startingTime[j]| == inst.numOperations[j]
          && |sol.endingTime[j]| == inst.numOperations[j])
    && (forall m :: 0 <= m < inst.numMachines ==>
          |sol.operationsOfMachine[m]| <= |inst.operationsOfMachine[m]|)
  }

  /** The two index checks: every operation is in its machine's sequence,
      and every sequence entry is an operation assigned to that machine. */
  predicate Matched(inst: Instance, sol: Solution)
    requires WellFormed(inst) && Sized(inst, sol)
  {
    && (forall j, o :: 0 <= j < inst.numJobs && 0 <= o < inst.numOperations[j] ==>
          && sol.machineOfOperation[j][o] < inst.numMachines
          && (j, o) in sol.operationsOfMachine[sol.machineOfOperation[j][o]])
    && (forall m, i :: 0 <= m < inst.numMachines && 0 <= i < |sol.operationsOfMachine[m]| ==>
          && OpInRange(inst.numOperations, sol.operationsOfMachine[m][i])
          && sol.machineOfOperation[sol.operationsOfMachine[m][i].0][sol.operationsOfMachine[m][i].1] == m)
  }

  /** The timing checks: non-negative starts, ends equal to start plus
      processing time within epsilon, and no overlap along a job or along a
      machine. */
  predicate Timely(inst: Instance, sol: Solution)
    requires WellFormed(inst) && Sized(inst, sol) && Matched(inst, sol)
  {
    && StartsNonNegative(inst, sol)
    && EndsMatchTimes(inst, sol)
    && JobsInOrder(inst, sol)
    && MachinesInOrder(inst, sol)
  }

  predicate StartsNonNegative(inst: Instance, sol: Solution)
    requires WellFormed(inst) && Sized(inst, sol)
  {
    forall j, o :: 0 <= j < inst.numJobs && 0 <= o < inst.numOperations[j] ==>
      0.0 <= sol.startingTime[j][o]
  }

  predicate EndsMatchTimes(inst: Instance, sol: Solution)
    requires WellFormed(inst) && Sized(inst, sol)
  {
    forall j, o :: 0 <= j < inst.numJobs && 0 <= o < inst.numOperations[j] ==>
      && (j, o, sol.machineOfOperation[j][o]) in inst.processingTime
      && Abs(sol.startingTime[j][o] + inst.processingTime[(j, o, sol.machineOfOperation[j][o])]
             - sol.endingTime[j][o]) <= Eps
  }

  predicate JobsInOrder(inst: Instance, sol: Solution)
    requires WellFormed(inst) && Sized(inst, sol)
  {
    forall j, o :: 0 <= j < inst.numJobs && 0 <= o && o + 1 < inst.numOperations[j] ==>
      sol.endingTime[j][o] <= sol.startingTime[j][o + 1]
  }

  predicate MachinesInOrder(inst: Instance, sol: Solution)
    requires WellFormed(inst) && Sized(inst, sol) && Matched(inst, sol)
  {
    forall m, i :: 0 <= m < inst.numMachines && 0 <= i && i + 1 < |sol.operationsOfMachine[m]| ==>
      EndAt(inst, sol, sol.operationsOfMachine[m][i])
        <= StartAt(inst, sol, sol.operationsOfMachine[m][i + 1])
  }

  function StartAt(inst: Instance, sol: Solution, p: Op): real
    requires WellFormed(inst) && Sized(inst, sol) && OpInRange(inst.numOperations, p)
  {
    sol.startingTime[p.0][p.1]
  }

  function EndAt(inst: Instance, sol: Solution, p: Op): real
    requires WellFormed(inst) && Sized(inst, sol) && OpInRange(inst.numOperations, p)
  {
    sol.endingTime[p.0][p.1]
  }

  /** When the job's previous operation ends, 0 for a first operation. */
  function JobReadyAt(inst: Instance, sol: Solution, p: Op): real
    requires WellFormed(inst) && Sized(inst, sol) && OpInRange(inst.numOperations, p)
  {
    if p.1 > 0 then sol.endingTime[p.0][p.1 - 1] else 0.0
  }

  /** The no-idle check as written, for position `i` of machine `m`: the
      operation passes when it is a job's first operation, or starts when
      its job's previous operation ends, or (not at the machine's front) when
      the machine's previous operation ends. A job's first operation
      therefore passes whatever its start. */
  predicate PassesAsWritten(inst: Instance, sol: Solution, m: nat, i: nat)
    requires WellFormed(inst) && Sized(inst, sol) && Matched(inst, sol)
    requires m < inst.numMachines && i < |sol.operationsOfMachine[m]|
  {
    var p := sol.operationsOfMachine[m][i];
    if i == 0 then
      !(p.1 != 0 && Abs(StartAt(inst, sol, p) - JobReadyAt(inst, sol, p)) > Eps)
    else
      !(&& p.1 != 0
        && Abs(StartAt(inst, sol, p) - JobReadyAt(inst, sol, p)) > Eps
        && Abs(StartAt(inst, sol, p) - EndAt(inst, sol, sol.operationsOfMachine[m][i - 1])) > Eps)
  }

  /** The same check as its comment states it: the operation starts when its
      job's previous operation ends (time 0 for a first operation) or when
      its machine's previous operation ends. */
  predicate Passes(inst: Instance, sol: Solution, m: nat, i: nat)
    requires WellFormed(inst) && Sized(inst, sol) && Matched(inst, sol)
    requires m < inst.numMachines && i < |sol.operationsOfMachine[m]|
  {
    var p := sol.operationsOfMachine[m][i];
    || Abs(StartAt(inst, sol, p) - JobReadyAt(inst, sol, p)) <= Eps
    || (i > 0 && Abs(StartAt(inst, sol, p) - EndAt(inst, sol, sol.operationsOfMachine[m][i - 1])) <= Eps)
  }

  predicate NoIdleAsWritten(inst: Instance, sol: Solution)
    requires WellFormed(inst) && Sized(inst, sol) && Matched(inst, sol)
  {
    forall m: nat, i: nat :: m < inst.numMachines && i < |sol.operationsOfMachine[m]| ==>
      PassesAsWritten(inst, sol, m, i)
  }

  predicate NoIdle(inst: Instance, sol: Solution)
    requires WellFormed(inst) && Sized(inst, sol) && Matched(inst, sol)
  {
    forall m: nat, i: nat :: m < inst.numMachines && i < |sol.operationsOfMachine[m]| ==>
      Passes(inst, sol, m, i)
  }

  /** The objective checks: the makespan covers every job's completion, lies
      between the largest and the total workload, and the three values are
      within the instance's bounds. */
  predicate ValuesBounded(inst: Instance, sol: Solution)
    requires WellFormed(inst) && Sized(inst, sol)
  {
    && (forall j :: 0 <= j < inst.numJobs ==>
          |sol.endingTime[j]| > 0 && Last(sol.endingTime[j]) <= sol.value[0])
    && sol.value[0] <= sol.value[1]
    && sol.value[2] <= sol.value[0]
    && |inst.primalBound| >= NumSolutionObjectives
    && (forall i :: 0 <= i < NumSolutionObjectives ==> sol.value[i] <= inst.primalBound[i])
  }

  /** `Solution::is_feasible`, as written. */
  predicate IsFeasible(inst: Instance, sol: Solution)
    requires WellFormed(inst)
  {
    && IsValid(inst)
    && Sized(inst, sol)
    && Matched(inst, sol)
    && Timely(inst, sol)
    && NoIdleAsWritten(inst, sol)
    && ValuesBounded(inst, sol)
  }

  /** `Solution::is_feasible` with the no-idle check as intended. */
  predicate IsFeasibleIntended(inst: Instance, sol: Solution)
    requires WellFormed(inst)
  {
    && IsValid(inst)
    && Sized(inst, sol)
    && Matched(inst, sol)
    && Timely(inst, sol)
    && NoIdle(inst, sol)
    && ValuesBounded(inst, sol)
  }

  /** The intended check is the stricter one. */
  lemma IntendedIsFeasible(inst: Instance, sol: Solution)
    requires WellFormed(inst)
    requires IsFeasibleIntended(inst, sol)
    ensures IsFeasible(inst, sol)
  {
    NoIdleIsNoIdleAsWritten(inst, sol);
  }

  lemma NoIdleIsNoIdleAsWritten(inst: Instance, sol: Solution)
    requires WellFormed(inst) && Sized(inst, sol) && Matched(inst, sol)
    requires NoIdle(inst, sol)
    ensures NoIdleAsWritten(inst, sol)
  {
    forall m: nat, i: nat | m < inst.numMachines && i < |sol.operationsOfMachine[m]|
      ensures PassesAsWritten(inst, sol, m, i)
    {
      assert Passes(inst, sol, m, i);
    }
  }

  /** Two jobs of one operation each, on machines 0 and 1, both of time 5. */
  function TwoParallelJobs(): (inst: Instance)
    ensures WellFormed(inst)
  {
    Instance(map[(0, 0, 0) := 5.0, (1, 0, 1) := 5.0], 2, [1, 1], 2, 2,
             [[[0]], [[1]]], [[(0, 0)], [(1, 0)]], 4, [10.0, 20.0, 5.0, 10.0])
  }

  function IdleSchedule(): Solution
  {
    Solution([[0], [1]], [[(0, 0)], [(1, 0)]], [[0.0], [3.0]], [[5.0], [8.0]], [8.0, 10.0, 5.0])
  }

  lemma TwoParallelJobsValid()
    ensures IsValid(TwoParallelJobs())
  {
    TwoParallelJobsEligible();
    TwoParallelJobsListed();
    TwoParallelJobsTimes();
    IsValidFrom(TwoParallelJobs());
  }

  lemma TwoParallelJobsEligible()
    ensures var inst := TwoParallelJobs();
      var mo: seq<seq<seq<nat>>> := inst.machinesOfOperation;
      forall j, o, i :: 0 <= j < 2 && 0 <= o < |mo[j]| && 0 <= i < |mo[j][o]| ==>
        (j, o) in inst.operationsOfMachine[mo[j][o][i]] && (j, o, mo[j][o][i]) in inst.processingTime
  {
  }

  lemma TwoParallelJobsListed()
    ensures var inst := TwoParallelJobs();
      var om: seq<seq<Op>> := inst.operationsOfMachine;
      forall m, i :: 0 <= m < 2 && 0 <= i < |om[m]| ==>
        m in inst.machinesOfOperation[om[m][i].0][om[m][i].1] && (om[m][i].0, om[m][i].1, m) in inst.processingTime
  {
  }

  lemma TwoParallelJobsTimes()
    ensures var inst := TwoParallelJobs();
      var pt := inst.processingTime;
      forall k :: k in pt ==>
        && !(pt[k] < Eps)
        && k.2 in inst.machinesOfOperation[k.0][k.1]
        && (k.0, k.1) in inst.operationsOfMachine[k.2]
  {
    assert TwoParallelJobs().processingTime.Keys == {(0, 0, 0), (1, 0, 1)};
  }

  lemma IdleScheduleShape()
    ensures Sized(TwoParallelJobs(), IdleSchedule())
    ensures Matched(TwoParallelJobs(), IdleSchedule())
  {
    var sol := IdleSchedule();
    assert (1, 0) in sol.operationsOfMachine[sol.machineOfOperation[1][0]];
    assert (0, 0) in sol.operationsOfMachine[sol.machineOfOperation[0][0]];
  }

  lemma IdleScheduleTimes()
    ensures Sized(TwoParallelJobs(), IdleSchedule()) && Matched(TwoParallelJobs(), IdleSchedule())
    ensures Timely(TwoParallelJobs(), IdleSchedule())
  {
    IdleScheduleShape();
    IdleScheduleStarts();
    IdleScheduleEnds();
    IdleScheduleOrders();
  }

  lemma IdleScheduleStarts()
    ensures Sized(TwoParallelJobs(), IdleSchedule())
    ensures StartsNonNegative(TwoParallelJobs(), IdleSchedule())
  {
    IdleScheduleShape();
  }

  lemma IdleScheduleEnds()
    ensures Sized(TwoParallelJobs(), IdleSchedule())
    ensures EndsMatchTimes(TwoParallelJobs(), IdleSchedule())
  {
    IdleScheduleShape();
    var inst := TwoParallelJobs();
    assert inst.processingTime[(0, 0, 0)] == 5.0;
    assert inst.processingTime[(1, 0, 1)] == 5.0;
  }

  /** With one operation per job and per machine, there is nothing to order. */
  lemma IdleScheduleOrders()
    ensures Sized(TwoParallelJobs(), IdleSchedule()) && Matched(TwoParallelJobs(), IdleSchedule())
    ensures JobsInOrder(TwoParallelJobs(), IdleSchedule())
    ensures MachinesInOrder(TwoParallelJobs(), IdleSchedule())
  {
    IdleScheduleShape();
    var inst := TwoParallelJobs();
    var sol := IdleSchedule();
    assert forall j :: 0 <= j < inst.numJobs ==> inst.numOperations[j] == 1;
    assert forall m :: 0 <= m < inst.numMachines ==> |sol.operationsOfMachine[m]| == 1;
  }

  lemma IdleScheduleValues()
    ensures Sized(TwoParallelJobs(), IdleSchedule())
    ensures ValuesBounded(TwoParallelJobs(), IdleSchedule())
  {
    IdleScheduleShape();
  }

  lemma IdleSchedulePassesAsWritten()
    ensures Sized(TwoParallelJobs(), IdleSchedule()) && Matched(TwoParallelJobs(), IdleSchedule())
    ensures NoIdleAsWritten(TwoParallelJobs(), IdleSchedule())
    ensures !Passes(TwoParallelJobs(), IdleSchedule(), 1, 0)
  {
    IdleScheduleShape();
  }

  /** Job 1 waits idle from 0 to 3 on an idle machine: `is_feasible` as
      written accepts the schedule, the intended check rejects it. */
  lemma IdleFirstOperationAccepted()
    ensures IsFeasible(TwoParallelJobs(), IdleSchedule())
    ensures !IsFeasibleIntended(TwoParallelJobs(), IdleSchedule())
  {
    TwoParallelJobsValid();
    IdleScheduleTimes();
    IdleScheduleValues();
    IdleSchedulePassesAsWritten();
  }
}
