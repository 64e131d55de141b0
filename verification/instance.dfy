/**
  The problem instance of the multi-objective flexible job-shop problem:
  jobs made of ordered operations, each operation eligible on a list of
  machines with a processing time per (job, operation, machine) triple, the
  inverse index machine -> (job, operation), and the worst-case objective
  bounds. `IsValid` is the structural audit `Instance::is_valid`.
 */
module Instances {
  import opened Common
  import opened Times

  /** The fixed objective count written by every constructor and the reader. */
  const NumObjectives: nat := 4

  datatype Instance = Instance(
    processingTime: map<Triple, real>,
    numJobs: nat,
    numOperations: seq<nat>,
    totalNumOperations: nat,
    numMachines: nat,
    machinesOfOperation: seq<seq<seq<nat>>>,
    operationsOfMachine: seq<seq<Op>>,
    numObjectives: nat,
    primalBound: seq<real>)

  /** The shape every consumer indexes by without checking: per-job and
      per-operation containers sized by the counts, the total equal to the
      sum of the per-job counts, and every stored index in range. The source
      relies on these facts (an out-of-range index is undefined behaviour
      there) but never checks them; the reader establishes them. */
  predicate WellFormed(inst: Instance)
  {
    && |inst.numOperations| == inst.numJobs
    && inst.totalNumOperations == NatSum(inst.numOperations)
    && |inst.machinesOfOperation| == inst.numJobs
    && (forall j :: 0 <= j < inst.numJobs ==>
          |inst.machinesOfOperation[j]| == inst.numOperations[j])
    && (forall j, o, i ::
          (0 <= j < inst.numJobs && 0 <= o < |inst.machinesOfOperation[j]|
           && 0 <= i < |inst.machinesOfOperation[j][o]|) ==>
            inst.machinesOfOperation[j][o][i] < inst.numMachines)
    && |inst.operationsOfMachine| == inst.numMachines
    && (forall m, i :: 0 <= m < inst.numMachines && 0 <= i < |inst.operationsOfMachine[m]| ==>
          OpInRange(inst.numOperations, inst.operationsOfMachine[m][i]))
    && (forall k :: k in inst.processingTime ==>
          OpInRange(inst.numOperations, (k.0, k.1)) && k.2 < inst.numMachines)
  }

  predicate OpInRange(numOperations: seq<nat>, p: Op)
  {
    p.0 < |numOperations| && p.1 < numOperations[p.0]
  }

  /** `Instance::is_valid`: the source's checks, in the source's order. */
  predicate IsValid(inst: Instance)
    requires WellFormed(inst)
  {
    var J := inst.numJobs;
    var mo: seq<seq<seq<nat>>> := inst.machinesOfOperation;
    var om: seq<seq<Op>> := inst.operationsOfMachine;
    var pt := inst.processingTime;
    && J != 0
    && inst.numMachines != 0
    && inst.totalNumOperations != 0
    && (forall j :: 0 <= j < J ==> inst.numOperations[j] != 0)
    && (forall j, o :: 0 <= j < J && 0 <= o < |mo[j]| ==> |mo[j][o]| != 0)
    // every eligible machine lists the operation
    && (forall j, o, i :: 0 <= j < J && 0 <= o < |mo[j]| && 0 <= i < |mo[j][o]| ==>
          (j, o) in om[mo[j][o][i]])
    // every operation listed by a machine has it as eligible
    && (forall m, i :: 0 <= m < inst.numMachines && 0 <= i < |om[m]| ==>
          m in mo[om[m][i].0][om[m][i].1])
    // no processing time below epsilon
    && (forall k :: k in pt ==> !(pt[k] < Eps))
    // every eligible triple has a time
    && (forall j, o, i :: 0 <= j < J && 0 <= o < |mo[j]| && 0 <= i < |mo[j][o]| ==>
          (j, o, mo[j][o][i]) in pt)
    // every time belongs to an eligible triple
    && (forall k :: k in pt ==> k.2 in mo[k.0][k.1])
    // every operation listed by a machine has a time there
    && (forall m, i :: 0 <= m < inst.numMachines && 0 <= i < |om[m]| ==>
          (om[m][i].0, om[m][i].1, m) in pt)
    // every time is listed by its machine
    && (forall k :: k in pt ==> (k.0, k.1) in om[k.2])
    && inst.numObjectives == 4
    && |inst.primalBound| == inst.numObjectives
    && (forall i :: 0 <= i < |inst.primalBound| ==> !(inst.primalBound[i] < 0.0))
  }

  /** `IsValid` from its checks one at a time. */
  lemma IsValidFrom(inst: Instance)
    requires WellFormed(inst)
    requires inst.numJobs != 0 && inst.numMachines != 0 && inst.totalNumOperations != 0
    requires forall j :: 0 <= j < inst.numJobs ==> inst.numOperations[j] != 0
    requires forall j, o :: 0 <= j < inst.numJobs && 0 <= o < |inst.machinesOfOperation[j]| ==>
               |inst.machinesOfOperation[j][o]| != 0
    requires forall j, o, i :: 0 <= j < inst.numJobs && 0 <= o < |inst.machinesOfOperation[j]|
                               && 0 <= i < |inst.machinesOfOperation[j][o]| ==>
               && (j, o) in inst.operationsOfMachine[inst.machinesOfOperation[j][o][i]]
               && (j, o, inst.machinesOfOperation[j][o][i]) in inst.processingTime
    requires forall m, i :: 0 <= m < inst.numMachines && 0 <= i < |inst.operationsOfMachine[m]| ==>
               && m in inst.machinesOfOperation[inst.operationsOfMachine[m][i].0][inst.operationsOfMachine[m][i].1]
               && (inst.operationsOfMachine[m][i].0, inst.operationsOfMachine[m][i].1, m) in inst.processingTime
    requires forall k :: k in inst.processingTime ==>
               && !(inst.processingTime[k] < Eps)
               && k.2 in inst.machinesOfOperation[k.0][k.1]
               && (k.0, k.1) in inst.operationsOfMachine[k.2]
    requires inst.numObjectives == 4 && |inst.primalBound| == inst.numObjectives
    requires forall i :: 0 <= i < |inst.primalBound| ==> !(inst.primalBound[i] < 0.0)
    ensures IsValid(inst)
  {
  }

  /** The eligibility relation as seen from the operations. */
  ghost function EligibleOf(mo: seq<seq<seq<nat>>>): set<Triple>
  {
    set j, o, i | 0 <= j < |mo| && 0 <= o < |mo[j]| && 0 <= i < |mo[j][o]| :: (j, o, mo[j][o][i])
  }

  /** The eligibility relation as seen from the machines. */
  ghost function ListedOf(om: seq<seq<Op>>): set<Triple>
  {
    set m, i | 0 <= m < |om| && 0 <= i < |om[m]| :: (om[m][i].0, om[m][i].1, m)
  }

  ghost function EligibleTriples(inst: Instance): set<Triple>
  {
    EligibleOf(inst.machinesOfOperation)
  }

  ghost function ListedTriples(inst: Instance): set<Triple>
  {
    ListedOf(inst.operationsOfMachine)
  }

  /** The invariant of a valid instance, stated independently of the
      checking loops: the two indices and the time map describe one and the
      same relation, every count is positive, every operation has an eligible
      machine, times are at least epsilon and there are four non-negative
      bounds. */
  ghost predicate Coherent(inst: Instance)
    requires WellFormed(inst)
  {
    && inst.numJobs > 0 && inst.numMachines > 0 && inst.totalNumOperations > 0
    && (forall j :: 0 <= j < inst.numJobs ==> inst.numOperations[j] > 0)
    && (forall j, o :: 0 <= j < inst.numJobs && 0 <= o < inst.numOperations[j] ==>
          |inst.machinesOfOperation[j][o]| > 0)
    && EligibleTriples(inst) == ListedTriples(inst) == inst.processingTime.Keys
    && (forall k :: k in inst.processingTime ==> inst.processingTime[k] >= Eps)
    && inst.numObjectives == NumObjectives
    && |inst.primalBound| == NumObjectives
    && AllNonNegative(inst.primalBound)
  }

  /** `is_valid` accepts exactly the coherent instances. */
  lemma ValidIffCoherent(inst: Instance)
    requires WellFormed(inst)
    ensures IsValid(inst) <==> Coherent(inst)
  {
    if IsValid(inst) {
      ValidSetsAgree(inst);
    }
    if Coherent(inst) {
      CoherentIsValid(inst);
    }
  }

  lemma ValidSetsAgree(inst: Instance)
    requires WellFormed(inst)
    requires IsValid(inst)
    ensures EligibleTriples(inst) == ListedTriples(inst) == inst.processingTime.Keys
  {
    ValidEligibleListed(inst);
    ValidListedEligible(inst);
    ValidTimedEligible(inst);
  }

  /** Every eligible triple is listed and timed. */
  lemma ValidEligibleListed(inst: Instance)
    requires WellFormed(inst)
    requires IsValid(inst)
    ensures forall t :: t in EligibleTriples(inst) ==> t in ListedTriples(inst) && t in inst.processingTime
  {
    var mo: seq<seq<seq<nat>>> := inst.machinesOfOperation;
    var om: seq<seq<Op>> := inst.operationsOfMachine;
    forall t | t in EligibleTriples(inst) ensures t in ListedTriples(inst) && t in inst.processingTime {
      var j: nat, o: nat, i: nat :| 0 <= j < inst.numJobs && 0 <= o < |mo[j]| && 0 <= i < |mo[j][o]|
                     && t == (j, o, mo[j][o][i]);
      var m := mo[j][o][i];
      assert (j, o) in om[m];
      var q :| 0 <= q < |om[m]| && om[m][q] == (j, o);
      assert t == (om[m][q].0, om[m][q].1, m);
    }
  }

  /** Every listed triple is eligible. */
  lemma ValidListedEligible(inst: Instance)
    requires WellFormed(inst)
    requires IsValid(inst)
    ensures forall t :: t in ListedTriples(inst) ==> t in EligibleTriples(inst)
  {
    var mo: seq<seq<seq<nat>>> := inst.machinesOfOperation;
    var om: seq<seq<Op>> := inst.operationsOfMachine;
    forall t | t in ListedTriples(inst) ensures t in EligibleTriples(inst) {
      var m: nat, q: nat :| 0 <= m < inst.numMachines && 0 <= q < |om[m]|
                  && t == (om[m][q].0, om[m][q].1, m);
      var j, o := om[m][q].0, om[m][q].1;
      assert m in mo[j][o];
      var i :| 0 <= i < |mo[j][o]| && mo[j][o][i] == m;
      assert t == (j, o, mo[j][o][i]);
    }
  }

  /** Every timed triple is eligible. */
  lemma ValidTimedEligible(inst: Instance)
    requires WellFormed(inst)
    requires IsValid(inst)
    ensures forall t :: t in inst.processingTime ==> t in EligibleTriples(inst)
  {
    var mo: seq<seq<seq<nat>>> := inst.machinesOfOperation;
    forall t | t in inst.processingTime ensures t in EligibleTriples(inst) {
      var j, o, m := t.0, t.1, t.2;
      assert m in mo[j][o];
      var i :| 0 <= i < |mo[j][o]| && mo[j][o][i] == m;
      assert t == (j, o, mo[j][o][i]);
    }
  }

  lemma CoherentIsValid(inst: Instance)
    requires WellFormed(inst)
    requires Coherent(inst)
    ensures IsValid(inst)
  {
    EligibleAreListed(inst);
    ListedAreEligible(inst);
    KeysAreBoth(inst);
  }

  lemma EligibleAreListed(inst: Instance)
    requires WellFormed(inst)
    requires EligibleTriples(inst) <= ListedTriples(inst)
    requires EligibleTriples(inst) <= inst.processingTime.Keys
    ensures forall j, o, i ::
      (0 <= j < inst.numJobs && 0 <= o < |inst.machinesOfOperation[j]|
       && 0 <= i < |inst.machinesOfOperation[j][o]|) ==>
        var m := inst.machinesOfOperation[j][o][i];
        (j, o) in inst.operationsOfMachine[m] && (j, o, m) in inst.processingTime
  {
    var mo: seq<seq<seq<nat>>> := inst.machinesOfOperation;
    var om: seq<seq<Op>> := inst.operationsOfMachine;
    forall j: nat, o: nat, i: nat | 0 <= j < inst.numJobs && 0 <= o < |mo[j]| && 0 <= i < |mo[j][o]|
      ensures (j, o) in om[mo[j][o][i]]
    {
      var t := (j, o, mo[j][o][i]);
      assert t in EligibleTriples(inst);
      assert t in ListedTriples(inst);
      var m: nat, q: nat :| 0 <= m < inst.numMachines && 0 <= q < |om[m]|
                  && t == (om[m][q].0, om[m][q].1, m);
      assert om[m][q] == (j, o);
    }
  }

  lemma ListedAreEligible(inst: Instance)
    requires WellFormed(inst)
    requires ListedTriples(inst) <= EligibleTriples(inst)
    requires ListedTriples(inst) <= inst.processingTime.Keys
    ensures forall m, q :: 0 <= m < inst.numMachines && 0 <= q < |inst.operationsOfMachine[m]| ==>
      var p := inst.operationsOfMachine[m][q];
      m in inst.machinesOfOperation[p.0][p.1] && (p.0, p.1, m) in inst.processingTime
  {
    var mo: seq<seq<seq<nat>>> := inst.machinesOfOperation;
    var om: seq<seq<Op>> := inst.operationsOfMachine;
    forall m: nat, q: nat | 0 <= m < inst.numMachines && 0 <= q < |om[m]|
      ensures m in mo[om[m][q].0][om[m][q].1] && (om[m][q].0, om[m][q].1, m) in inst.processingTime
    {
      var t := (om[m][q].0, om[m][q].1, m);
      assert t in ListedTriples(inst);
      var j: nat, o: nat, i: nat :| 0 <= j < inst.numJobs && 0 <= o < |mo[j]| && 0 <= i < |mo[j][o]|
                     && t == (j, o, mo[j][o][i]);
    }
  }

  lemma KeysAreBoth(inst: Instance)
    requires WellFormed(inst)
    requires inst.processingTime.Keys <= EligibleTriples(inst)
    requires inst.processingTime.Keys <= ListedTriples(inst)
    ensures forall k :: k in inst.processingTime ==>
      k.2 in inst.machinesOfOperation[k.0][k.1] && (k.0, k.1) in inst.operationsOfMachine[k.2]
  {
    var mo: seq<seq<seq<nat>>> := inst.machinesOfOperation;
    var om: seq<seq<Op>> := inst.operationsOfMachine;
    forall k | k in inst.processingTime ensures k.2 in mo[k.0][k.1] && (k.0, k.1) in om[k.2] {
      assert k in EligibleTriples(inst);
      var j: nat, o: nat, i: nat :| 0 <= j < inst.numJobs && 0 <= o < |mo[j]| && 0 <= i < |mo[j][o]|
                     && k == (j, o, mo[j][o][i]);
      assert k in ListedTriples(inst);
      var m: nat, q: nat :| 0 <= m < inst.numMachines && 0 <= q < |om[m]|
                  && k == (om[m][q].0, om[m][q].1, m);
      assert om[m][q] == (k.0, k.1);
    }
  }

  /** `compute_primal_bound`: the largest processing time times the operation
      count, that times the job count, and the maximum and the sum of the
      per-machine working times. The first bound covers any single time
      repeated once per operation, the second is the job count times the
      first, and the third dominates every machine's working time. The
      largest time and the running maximum are pinned down by the contracts
      of `MaxTime` and `Max0`. */
  ghost function PrimalBound(pt: map<Triple, real>, numJobs: nat, numMachines: nat,
                             totalNumOperations: nat): (b: seq<real>)
    ensures |b| == 4
    ensures forall k :: k in pt ==> Multiple(totalNumOperations, pt[k]) <= b[0]
    ensures b[1] == Multiple(numJobs, b[0])
    ensures forall m :: 0 <= m < numMachines ==> WorkingTime(pt, m) <= b[2]
    ensures b[0] == Multiple(totalNumOperations, MaxTime(pt, pt.Keys))
    ensures b[2] == Max0(WorkingTimes(pt, numMachines))
    ensures b[3] == Sum(WorkingTimes(pt, numMachines))
  {
    var maxTime := MaxTime(pt, pt.Keys);
    var workingTime := WorkingTimes(pt, numMachines);
    MultipleOfProduct(numJobs, totalNumOperations, maxTime);
    ScaledTimesBelow(pt, totalNumOperations, maxTime);
    MachineBounds(pt, numMachines, Max0(workingTime), Sum(workingTime));
    [Multiple(totalNumOperations, maxTime),
     Multiple(numJobs * totalNumOperations, maxTime),
     Max0(workingTime),
     Sum(workingTime)]
  }

  /** With non-negative times every bound is non-negative, and the largest
      working time is at most their sum. */
  lemma PrimalBoundNonNegative(pt: map<Triple, real>, numJobs: nat, numMachines: nat,
                               totalNumOperations: nat)
    requires TimesNonNegative(pt)
    ensures var b := PrimalBound(pt, numJobs, numMachines, totalNumOperations);
      0.0 <= b[0] && 0.0 <= b[1] && 0.0 <= b[2] <= b[3]
  {
    var b := PrimalBound(pt, numJobs, numMachines, totalNumOperations);
    var workingTime := WorkingTimes(pt, numMachines);
    MultipleNonNegative(totalNumOperations, MaxTime(pt, pt.Keys));
    MultipleNonNegative(numJobs, b[0]);
    MachineBounds(pt, numMachines, Max0(workingTime), Sum(workingTime));
  }

  lemma ScaledTimesBelow(pt: map<Triple, real>, n: nat, c: real)
    requires forall k :: k in pt ==> pt[k] <= c
    ensures forall k :: k in pt ==> Multiple(n, pt[k]) <= Multiple(n, c)
  {
    forall k | k in pt ensures Multiple(n, pt[k]) <= Multiple(n, c) {
      MultipleMonotone(n, pt[k], c);
    }
  }

  /** `working_time` of every machine. */
  ghost function WorkingTimes(pt: map<Triple, real>, numMachines: nat): (w: seq<real>)
    ensures |w| == numMachines
    ensures forall m :: 0 <= m < numMachines ==> w[m] == WorkingTime(pt, m)
  {
    seq(numMachines, m requires 0 <= m => WorkingTime(pt, m))
  }

  /** The bounds stored in `inst` are the ones `compute_primal_bound` derives. */
  ghost predicate BoundsComputed(inst: Instance)
  {
    inst.primalBound == PrimalBound(inst.processingTime, inst.numJobs,
                                    inst.numMachines, inst.totalNumOperations)
  }

  /** The last two bounds. */
  lemma MachineBounds(pt: map<Triple, real>, numMachines: nat, b2: real, b3: real)
    requires b2 == Max0(WorkingTimes(pt, numMachines))
    requires b3 == Sum(WorkingTimes(pt, numMachines))
    ensures forall m :: 0 <= m < numMachines ==> WorkingTime(pt, m) <= b2
    ensures TimesNonNegative(pt) ==> 0.0 <= b2 <= b3
  {
    var workingTime := WorkingTimes(pt, numMachines);
    forall m | 0 <= m < numMachines ensures WorkingTime(pt, m) <= b2 {
      assert workingTime[m] == WorkingTime(pt, m);
    }
    if TimesNonNegative(pt) {
      WorkingTimesNonNegative(pt, numMachines);
      Max0AtMostSum(workingTime);
    }
  }

  lemma WorkingTimesNonNegative(pt: map<Triple, real>, numMachines: nat)
    requires TimesNonNegative(pt)
    ensures AllNonNegative(WorkingTimes(pt, numMachines))
  {
    forall m | 0 <= m < numMachines ensures WorkingTime(pt, m) >= 0.0 {
      TimeSumNonNegative(pt, MachineKeys(pt, m));
    }
  }
}
