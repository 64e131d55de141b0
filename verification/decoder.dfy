/**
  The decoder of the evolutionary solver. It reads a chromosome the way
  `Solution(instance, key)` reads a key. The work happens in per-thread
  buffers that are kept from one call to the next. It returns four
  objective values:
  - the makespan;
  - the total completion time (the sum of the jobs' completion times);
  - the largest machine workload;
  - the total workload.
 */
module Decoders {
  import opened Common
  import opened Times
  import opened Instances
  import opened Keys
  import opened Walk
  import opened WalkProofs
  import opened Solutions
  import opened KeySolutions

  /** The buffers of one thread. */
  datatype Scratch = Scratch(
    machineOfOperation: seq<seq<nat>>,
    operationsOfMachine: seq<seq<Op>>,
    startingTime: seq<seq<real>>,
    endingTime: seq<seq<real>>,
    value: seq<real>,
    permutation: seq<(real, nat)>,
    numScheduled: seq<nat>)

  /** One set of buffers per thread. */
  datatype Decoder = Decoder(scratch: seq<Scratch>)

  /** The sizes the constructor gives a thread's buffers. */
  predicate Fits(inst: Instance, s: Scratch)
  {
    && |inst.numOperations| == inst.numJobs
    && |s.machineOfOperation| == inst.numJobs
    && |s.startingTime| == inst.numJobs
    && |s.endingTime| == inst.numJobs
    && (forall j :: 0 <= j < inst.numJobs ==>
          && |s.machineOfOperation[j]| == inst.numOperations[j]
          && |s.startingTime[j]| == inst.numOperations[j]
          && |s.endingTime[j]| == inst.numOperations[j])
    && |s.operationsOfMachine| == inst.numMachines
    && |s.value| == inst.numObjectives
    && |s.permutation| == inst.totalNumOperations
    && |s.numScheduled| == inst.numJobs
  }

  /** The constructor: `numThreads` sets of zero-filled buffers, with no
      operation on any machine. */
  function NewDecoder(inst: Instance, numThreads: nat): (d: Decoder)
    requires WellFormed(inst)
    ensures |d.scratch| == numThreads
    ensures forall t :: 0 <= t < numThreads ==>
      && Fits(inst, d.scratch[t])
      && (forall m :: 0 <= m < inst.numMachines ==> d.scratch[t].operationsOfMachine[m] == [])
      && (forall j :: 0 <= j < inst.numJobs ==> d.scratch[t].numScheduled[j] == 0)
  {
    var e := EmptySolution(inst);
    var s := Scratch(e.machineOfOperation, e.operationsOfMachine, e.startingTime, e.endingTime,
                     seq(inst.numObjectives, _ => 0.0),
                     seq(inst.totalNumOperations, _ => (0.0, 0)),
                     seq(inst.numJobs, _ => 0));
    Decoder(seq(numThreads, _ => s))
  }

  /** The four values the decoder returns for `key`. They are read off the
      walk that starts from empty buffers. */
  function DecodedValues(inst: Instance, key: seq<real>): (v: seq<real>)
    requires WellFormed(inst) && IsValid(inst) && KeyFits(inst, key)
    ensures |v| == inst.numObjectives
  {
    ValidTimesPositive(inst);
    var st := Schedule(inst, key);
    var ends := LastEnds(st.end);
    var loads := Loads(inst.processingTime, st.sequence);
    [Max0(ends), Sum(ends), Max0(loads), Sum(loads)]
  }

  // ---------------------------------------------------------------------
  // The loops of `decode`

  /** What the machine-selection loop reads: a non-empty list of eligible
      machines for every operation, and a first chromosome half whose entries
      are at most 1. */
  predicate Selectable(numOperations: seq<nat>, eligible: seq<seq<seq<nat>>>, chromosome: seq<real>)
  {
    && |eligible| == |numOperations|
    && (forall j :: 0 <= j < |numOperations| ==> |eligible[j]| == numOperations[j])
    && (forall j, o :: 0 <= j < |numOperations| && 0 <= o < numOperations[j] ==>
          |eligible[j][o]| > 0)
    && NatSum(numOperations) <= |chromosome|
    && (forall i :: 0 <= i < NatSum(numOperations) ==> chromosome[i] <= 1.0)
  }

  /** The machine the selection loop picks for operation `o` of job `j`. */
  function Picked(numOperations: seq<nat>, eligible: seq<seq<seq<nat>>>, chromosome: seq<real>,
                  j: nat, o: nat): nat
    requires Selectable(numOperations, eligible, chromosome)
    requires j < |numOperations| && o < numOperations[j]
  {
    OffsetBound(numOperations, j, o);
    eligible[j][o][SelectIndex(|eligible[j][o]|, chromosome[Offset(numOperations, j) + o])]
  }

  /** On a valid instance the loop picks the machines `AssignMachines` picks. */
  lemma PickedIsChosen(inst: Instance, key: seq<real>)
    requires WellFormed(inst) && IsValid(inst) && KeyFits(inst, key)
    ensures Selectable(inst.numOperations, inst.machinesOfOperation, key)
    ensures forall j, o :: 0 <= j < inst.numJobs && 0 <= o < inst.numOperations[j] ==>
      AssignMachines(inst, key)[j][o] == Picked(inst.numOperations, inst.machinesOfOperation, key, j, o)
  {
  }

  /** The first loop of `decode`: every operation's machine is read from the
      first half of the chromosome into the thread's buffer. */
  method ChooseMachines(numOperations: seq<nat>, eligible: seq<seq<seq<nat>>>,
                        buffer: seq<seq<nat>>, chromosome: seq<real>)
    returns (mo: seq<seq<nat>>)
    requires Selectable(numOperations, eligible, chromosome)
    requires |buffer| == |numOperations|
    requires forall j :: 0 <= j < |numOperations| ==> |buffer[j]| == numOperations[j]
    ensures |mo| == |numOperations|
    ensures forall j :: 0 <= j < |numOperations| ==> |mo[j]| == numOperations[j]
    ensures forall j, o :: 0 <= j < |numOperations| && 0 <= o < numOperations[j] ==>
      mo[j][o] == Picked(numOperations, eligible, chromosome, j, o)
  {
    mo := buffer;
    var job := 0;
    var i := 0;
    while job < |numOperations|
      invariant 0 <= job <= |numOperations|
      invariant i == Offset(numOperations, job)
      invariant |mo| == |numOperations|
      invariant forall j :: 0 <= j < |numOperations| ==> |mo[j]| == numOperations[j]
      invariant forall j, o :: 0 <= j < job && 0 <= o < numOperations[j] ==>
        mo[j][o] == Picked(numOperations, eligible, chromosome, j, o)
    {
      var operation := 0;
      while operation < numOperations[job]
        invariant 0 <= operation <= numOperations[job]
        invariant i == Offset(numOperations, job) + operation
        invariant |mo| == |numOperations|
        invariant forall j :: 0 <= j < |numOperations| ==> |mo[j]| == numOperations[j]
        invariant forall j, o :: 0 <= j < job && 0 <= o < numOperations[j] ==>
          mo[j][o] == Picked(numOperations, eligible, chromosome, j, o)
        invariant forall o :: 0 <= o < operation ==>
          mo[job][o] == Picked(numOperations, eligible, chromosome, job, o)
      {
        OffsetBound(numOperations, job, operation);
        var machines := eligible[job][operation];
        var k := SelectIndexLoop(|machines|, chromosome[i]);
        mo := mo[job := mo[job][operation := machines[k]]];
        operation := operation + 1;
        i := i + 1;
      }
      NatSumPrefixStep(numOperations, job);
      job := job + 1;
    }
  }

  /** The loop's buffer, filled, is the assignment of `AssignMachines`. */
  lemma SameAssignment(inst: Instance, key: seq<real>, mo: seq<seq<nat>>)
    requires WellFormed(inst) && IsValid(inst) && KeyFits(inst, key)
    requires Selectable(inst.numOperations, inst.machinesOfOperation, key)
    requires |mo| == inst.numJobs
    requires forall j :: 0 <= j < inst.numJobs ==> |mo[j]| == inst.numOperations[j]
    requires forall j, o :: 0 <= j < inst.numJobs && 0 <= o < inst.numOperations[j] ==>
      mo[j][o] == Picked(inst.numOperations, inst.machinesOfOperation, key, j, o)
    ensures mo == AssignMachines(inst, key)
  {
    var a := AssignMachines(inst, key);
    PickedIsChosen(inst, key);
    assert forall j :: 0 <= j < inst.numJobs ==> mo[j] == a[j];
  }

  /** The second loop: position `i` of the job-major order is paired with its
      key from the second half of the chromosome. */
  method FillPermutation(inst: Instance, buffer: seq<(real, nat)>, chromosome: seq<real>)
    returns (perm: seq<(real, nat)>)
    requires WellFormed(inst) && |chromosome| == 2 * inst.totalNumOperations
    requires |buffer| == inst.totalNumOperations
    ensures perm == ReleasePairs(inst, chromosome)
  {
    perm := buffer;
    ghost var pairs := ReleasePairs(inst, chromosome);
    var job := 0;
    var i := 0;
    while job < inst.numJobs
      invariant 0 <= job <= inst.numJobs
      invariant i == Offset(inst.numOperations, job) <= inst.totalNumOperations
      invariant |perm| == inst.totalNumOperations
      invariant forall k :: 0 <= k < i ==> perm[k] == pairs[k]
    {
      NatSumPrefixBound(inst.numOperations, job);
      var operation := 0;
      while operation < inst.numOperations[job]
        invariant 0 <= operation <= inst.numOperations[job]
        invariant i == Offset(inst.numOperations, job) + operation
        invariant i + inst.numOperations[job] - operation <= inst.totalNumOperations
        invariant |perm| == inst.totalNumOperations
        invariant forall k :: 0 <= k < i ==> perm[k] == pairs[k]
      {
        OffsetBound(inst.numOperations, job, operation);
        JobSequenceAt(inst.numOperations, job, operation);
        perm := perm[i := (chromosome[inst.totalNumOperations + i], job)];
        operation := operation + 1;
        i := i + 1;
      }
      NatSumPrefixStep(inst.numOperations, job);
      job := job + 1;
    }
    assert inst.numOperations[..inst.numJobs] == inst.numOperations;
  }

  /** A prefix of a release order the walk can follow is one too. */
  lemma FeasiblePrefix(inst: Instance, st: State, order: seq<nat>, k: nat)
    requires Shaped(inst, st) && Feasible(inst, st, order)
    requires k <= |order|
    ensures Feasible(inst, st, order[..k])
  {
    assert order == order[..k] + order[k..];
    assert multiset(order) == multiset(order[..k]) + multiset(order[k..]);
  }

  /** The walk over one more entry of the order is one more step. */
  lemma RunExtend(inst: Instance, assign: seq<seq<nat>>, st: State, order: seq<nat>, i: nat)
    requires Sane(inst, assign, st) && Feasible(inst, st, order)
    requires i < |order|
    ensures Feasible(inst, st, order[..i]) && Feasible(inst, st, order[..i + 1])
    ensures CanStep(inst, assign, Run(inst, assign, st, order[..i]), order[i])
    ensures Run(inst, assign, st, order[..i + 1])
      == Step(inst, assign, Run(inst, assign, st, order[..i]), order[i])
  {
    FeasiblePrefix(inst, st, order, i + 1);
    FeasiblePrefix(inst, st, order, i);
    assert DropLast(order[..i + 1]) == order[..i];
    RunFront(inst, assign, st, order[..i + 1]);
  }

  /** The third loop: the walk over the sorted pairs. */
  method RunWalk(inst: Instance, assign: seq<seq<nat>>, st0: State, perm: seq<(real, nat)>)
    returns (st: State)
    requires Sane(inst, assign, st0) && Feasible(inst, st0, Jobs(perm))
    ensures st == Run(inst, assign, st0, Jobs(perm))
  {
    ghost var order := Jobs(perm);
    st := st0;
    var i := 0;
    while i < |perm|
      invariant 0 <= i <= |perm|
      invariant Feasible(inst, st0, order[..i])
      invariant st == Run(inst, assign, st0, order[..i])
    {
      RunExtend(inst, assign, st0, order, i);
      st := Step(inst, assign, st, perm[i].1);
      i := i + 1;
    }
    assert order[..|perm|] == order;
  }

  lemma Max0Step(xs: seq<real>, k: nat)
    requires k < |xs|
    ensures Max0(xs[..k + 1]) == if Max0(xs[..k]) < xs[k] then xs[k] else Max0(xs[..k])
    ensures Sum(xs[..k + 1]) == Sum(xs[..k]) + xs[k]
  {
    assert DropLast(xs[..k + 1]) == xs[..k];
  }

  /** The makespan loop: the running maximum and the sum of the jobs'
      completion times. */
  method CompletionValues(ends: seq<seq<real>>) returns (makespan: real, total: real)
    requires forall j :: 0 <= j < |ends| ==> |ends[j]| > 0
    ensures makespan == Max0(LastEnds(ends))
    ensures total == Sum(LastEnds(ends))
  {
    ghost var last := LastEnds(ends);
    makespan := 0.0;
    total := 0.0;
    var job := 0;
    while job < |ends|
      invariant 0 <= job <= |ends|
      invariant makespan == Max0(last[..job])
      invariant total == Sum(last[..job])
    {
      Max0Step(last, job);
      var e := ends[job][|ends[job]| - 1];
      if makespan < e {
        makespan := e;
      }
      total := total + e;
      job := job + 1;
    }
    assert last[..|ends|] == last;
  }

  /** The inner workload loop of one machine. */
  method MachineLoad(pt: map<Triple, real>, m: nat, ops: seq<Op>) returns (workload: real)
    requires ListedOn(pt, m, ops)
    ensures workload == Load(pt, m, ops)
  {
    workload := 0.0;
    var q := 0;
    while q < |ops|
      invariant 0 <= q <= |ops|
      invariant ListedOn(pt, m, ops[..q])
      invariant workload == Load(pt, m, ops[..q])
    {
      assert DropLast(ops[..q + 1]) == ops[..q];
      workload := workload + pt[(ops[q].0, ops[q].1, m)];
      q := q + 1;
    }
    assert ops[..|ops|] == ops;
  }

  /** The workload loop: the running maximum and the sum of the machine
      workloads. */
  method WorkloadValues(pt: map<Triple, real>, sequences: seq<seq<Op>>)
    returns (largest: real, total: real)
    requires AllListed(pt, sequences)
    ensures largest == Max0(Loads(pt, sequences))
    ensures total == Sum(Loads(pt, sequences))
  {
    ghost var loads := Loads(pt, sequences);
    largest := 0.0;
    total := 0.0;
    var machine := 0;
    while machine < |sequences|
      invariant 0 <= machine <= |sequences|
      invariant largest == Max0(loads[..machine])
      invariant total == Sum(loads[..machine])
    {
      Max0Step(loads, machine);
      var workload := MachineLoad(pt, machine, sequences[machine]);
      if largest < workload {
        largest := workload;
      }
      total := total + workload;
      machine := machine + 1;
    }
    assert loads[..|sequences|] == loads;
  }

  // ---------------------------------------------------------------------
  // `decode`

  /** Two walks that agree and have scheduled everything hold the same buffers. */
  lemma AgreeFinished(inst: Instance, a: State, b: State)
    requires Shaped(inst, a) && Shaped(inst, b) && Agree(inst, a, b)
    requires forall j :: 0 <= j < inst.numJobs ==> a.scheduled[j] == inst.numOperations[j]
    ensures a.start == b.start && a.end == b.end && a.sequence == b.sequence
  {
    assert forall j :: 0 <= j < inst.numJobs ==> a.start[j] == b.start[j] && a.end[j] == b.end[j];
  }

  /** A walk that schedules every operation ends in the same buffers from
      any starting buffers with nothing scheduled and no machine sequences. */
  lemma StaleRun(inst: Instance, assign: seq<seq<nat>>, a: State, b: State, order: seq<nat>)
    requires Sane(inst, assign, a) && Sane(inst, assign, b)
    requires a.scheduled == b.scheduled && a.sequence == b.sequence
    requires forall j :: 0 <= j < inst.numJobs ==> a.scheduled[j] == 0
    requires Feasible(inst, a, order)
    requires forall j :: 0 <= j < inst.numJobs ==> multiset(order)[j] == inst.numOperations[j]
    ensures Feasible(inst, b, order)
    ensures var ra := Run(inst, assign, a, order);
      var rb := Run(inst, assign, b, order);
      ra.sequence == rb.sequence && ra.start == rb.start && ra.end == rb.end
  {
    RunAgrees(inst, assign, a, b, order);
    AgreeFinished(inst, Run(inst, assign, a, order), Run(inst, assign, b, order));
  }

  /** The walk from the thread's buffers ends where the walk from empty
      buffers ends: the start and end buffers may hold anything from an
      earlier call. */
  lemma StaleBuffersIgnored(inst: Instance, key: seq<real>, st0: State)
    requires WellFormed(inst) && IsValid(inst) && KeyFits(inst, key)
    requires Shaped(inst, st0)
    requires forall j :: 0 <= j < inst.numJobs ==> st0.scheduled[j] == 0
    requires forall m :: 0 <= m < inst.numMachines ==> st0.sequence[m] == []
    ensures Sane(inst, AssignMachines(inst, key), st0)
    ensures Feasible(inst, st0, ReleaseOrder(inst, key))
    ensures var st := Run(inst, AssignMachines(inst, key), st0, ReleaseOrder(inst, key));
      && st.sequence == Schedule(inst, key).sequence
      && st.start == Schedule(inst, key).start
      && st.end == Schedule(inst, key).end
  {
    var assign := AssignMachines(inst, key);
    var init := InitialState(inst);
    KeyAssignment(inst, key);
    InitialKeeps(inst, assign);
    KeyOrderFeasible(inst, key);
    ReleaseOrderCounts(inst, key);
    assert init.scheduled == st0.scheduled;
    assert init.sequence == st0.sequence;
    StaleRun(inst, assign, init, st0, ReleaseOrder(inst, key));
  }

  /** The first three loops of `decode`: machines, release pairs, sort and
      walk, in the thread's buffers. */
  method WalkBuffers(inst: Instance, s: Scratch, chromosome: seq<real>)
    returns (mo: seq<seq<nat>>, perm: seq<(real, nat)>, st: State)
    requires WellFormed(inst) && IsValid(inst) && KeyFits(inst, chromosome)
    requires Fits(inst, s)
    ensures mo == AssignMachines(inst, chromosome)
    ensures |perm| == inst.totalNumOperations
    ensures Sane(inst, mo, st)
    ensures st.sequence == Schedule(inst, chromosome).sequence
    ensures st.start == Schedule(inst, chromosome).start
    ensures st.end == Schedule(inst, chromosome).end
  {
    PickedIsChosen(inst, chromosome);
    mo := ChooseMachines(inst.numOperations, inst.machinesOfOperation, s.machineOfOperation, chromosome);
    SameAssignment(inst, chromosome, mo);
    perm := FillPermutation(inst, s.permutation, chromosome);
    perm := SortPairs(perm);
    var sequences: seq<seq<Op>> := seq(inst.numMachines, _ => []);
    var st0 := State(seq(inst.numJobs, _ => 0), sequences, s.startingTime, s.endingTime);
    StaleBuffersIgnored(inst, chromosome, st0);
    st := RunWalk(inst, mo, st0, perm);
  }

  /** `Decoder::decode` on thread `thread`. The values depend on the
      chromosome alone, whatever the buffers held; only this thread's
      buffers change, and they keep their sizes. */
  method Decode(inst: Instance, d: Decoder, thread: nat, chromosome: seq<real>)
    returns (value: seq<real>, d': Decoder)
    requires WellFormed(inst) && IsValid(inst) && KeyFits(inst, chromosome)
    requires thread < |d.scratch| && Fits(inst, d.scratch[thread])
    ensures value == DecodedValues(inst, chromosome)
    ensures |d'.scratch| == |d.scratch|
    ensures forall t :: 0 <= t < |d.scratch| && t != thread ==> d'.scratch[t] == d.scratch[t]
    ensures Fits(inst, d'.scratch[thread]) && d'.scratch[thread].value == value
  {
    var mo, perm, st := WalkBuffers(inst, d.scratch[thread], chromosome);
    ValidTimesPositive(inst);
    var makespan, completion := CompletionValues(st.end);
    var largest, workload := WorkloadValues(inst.processingTime, st.sequence);
    value := [makespan, completion, largest, workload];
    d' := Decoder(d.scratch[thread := Scratch(mo, st.sequence, st.start, st.end, value, perm, st.scheduled)]);
  }

  // ---------------------------------------------------------------------
  // Properties of the decoded values

  /** The decoder's makespan and workloads are the values of the solution
      built from the same key; its total workload is that solution's second
      value. */
  lemma DecoderAgreesWithSolution(inst: Instance, key: seq<real>)
    requires WellFormed(inst) && IsValid(inst) && KeyFits(inst, key)
    ensures var v := DecodedValues(inst, key);
      var w := SolutionFromKey(inst, key).value;
      v[0] == w[0] && v[2] == w[2] && v[3] == w[1]
  {
  }

  /** Every job's completion time is non-negative, so the makespan is at
      most the total completion time. */
  lemma CompletionOrdered(inst: Instance, assign: seq<seq<nat>>, st: State)
    requires JobsNonEmpty(inst) && Sane(inst, assign, st) && Timed(inst, assign, st)
    requires TimesNonNegative(inst.processingTime) && AllScheduled(inst, st)
    ensures Max0(LastEnds(st.end)) <= Sum(LastEnds(st.end))
  {
    EndsNonNegative(inst, assign, st);
    var ends := LastEnds(st.end);
    assert AllNonNegative(ends) by {
      forall j | 0 <= j < |ends| ensures ends[j] >= 0.0 {
        assert Done(st, (j, |st.end[j]| - 1));
      }
    }
    Max0AtMostSum(ends);
  }

  /** On a finished walk the makespan lies between the largest workload and
      the total workload. */
  lemma FinishedOrdered(inst: Instance, assign: seq<seq<nat>>, st: State)
    requires JobsNonEmpty(inst) && Sane(inst, assign, st) && AllScheduled(inst, st)
    requires Timed(inst, assign, st) && EndsWithinTotal(inst, assign, st)
    requires LoadsCovered(inst, assign, st)
    requires TimesNonNegative(inst.processingTime)
    ensures var v := FromState(inst, assign, st).value;
      0.0 <= v[2] <= v[0] <= v[1]
  {
    MakespanWithinTotal(inst, assign, st);
    LoadsWithinMakespan(inst, assign, st);
  }

  /** The makespan is at most the total completion time and at most the
      total workload; the largest workload is at most the makespan and at
      most the total workload. */
  lemma DecodedValuesOrdered(inst: Instance, key: seq<real>)
    requires WellFormed(inst) && IsValid(inst) && KeyFits(inst, key)
    ensures var v := DecodedValues(inst, key);
      && 0.0 <= v[2] <= v[0] <= v[1]
      && v[0] <= v[3]
      && v[2] <= v[3]
  {
    ValidTimesPositive(inst);
    ScheduleFinished(inst, key);
    DecoderAgreesWithSolution(inst, key);
    var assign := AssignMachines(inst, key);
    var st := Schedule(inst, key);
    FinishedOrdered(inst, assign, st);
    CompletionOrdered(inst, assign, st);
  }
}
