/**
  The scheduling walk shared by the key constructor of a solution and by the
  decoder: the jobs of the release order are taken one at a time; each time
  the job's next operation is appended to its machine's sequence and starts
  as soon as both the job's previous operation and the machine's last
  operation have ended.

  The state holds the four buffers the walk reads and writes. Entries of
  operations not yet scheduled may hold anything (the decoder reuses its
  buffers between calls); the walk never reads them.
 */
module Walk {
  import opened Common
  import opened Times
  import opened Instances

  datatype State = State(
    scheduled: seq<nat>,      // `num_scheduled_operations_of_job`
    sequence: seq<seq<Op>>,   // `operations_of_machine`
    start: seq<seq<real>>,    // `starting_time_of_operation`
    end: seq<seq<real>>)      // `ending_time_of_operation`

  /** A machine for every operation, one with a processing time. */
  predicate Assigned(inst: Instance, assign: seq<seq<nat>>)
  {
    && |inst.numOperations| == inst.numJobs
    && |assign| == inst.numJobs
    && (forall j :: 0 <= j < inst.numJobs ==> |assign[j]| == inst.numOperations[j])
    && (forall j, o :: 0 <= j < inst.numJobs && 0 <= o < inst.numOperations[j] ==>
          assign[j][o] < inst.numMachines && (j, o, assign[j][o]) in inst.processingTime)
  }

  /** The buffers have the instance's shape. */
  predicate Shaped(inst: Instance, st: State)
  {
    && |inst.numOperations| == inst.numJobs
    && |st.scheduled| == inst.numJobs
    && |st.start| == inst.numJobs
    && |st.end| == inst.numJobs
    && |st.sequence| == inst.numMachines
    && (forall j :: 0 <= j < inst.numJobs ==>
          && st.scheduled[j] <= inst.numOperations[j]
          && |st.start[j]| == inst.numOperations[j]
          && |st.end[j]| == inst.numOperations[j])
  }

  /** Operation `p` has been scheduled. */
  predicate Done(st: State, p: Op)
  {
    p.0 < |st.scheduled| && p.1 < st.scheduled[p.0]
  }

  /** The walk's working state: shaped buffers, and every operation in a
      machine's sequence is a scheduled one assigned to that machine. */
  predicate Sane(inst: Instance, assign: seq<seq<nat>>, st: State)
  {
    && Assigned(inst, assign)
    && Shaped(inst, st)
    && (forall m, i :: 0 <= m < inst.numMachines && 0 <= i < |st.sequence[m]| ==>
          Done(st, st.sequence[m][i]) && assign[st.sequence[m][i].0][st.sequence[m][i].1] == m)
    && AllListed(inst.processingTime, st.sequence)
  }

  /** The ending time of a scheduled operation. */
  function EndOf(inst: Instance, st: State, p: Op): real
    requires Shaped(inst, st) && Done(st, p)
  {
    st.end[p.0][p.1]
  }

  function StartOf(inst: Instance, st: State, p: Op): real
    requires Shaped(inst, st) && Done(st, p)
  {
    st.start[p.0][p.1]
  }

  /** When the job's previous operation ends (0 for its first operation). */
  function JobReady(st: State, p: Op): real
    requires p.0 < |st.end| && (p.1 > 0 ==> p.1 - 1 < |st.end[p.0]|)
  {
    if p.1 > 0 then st.end[p.0][p.1 - 1] else 0.0
  }

  /** When the machine's last operation ends (0 for an idle machine). */
  function MachineReady(inst: Instance, assign: seq<seq<nat>>, st: State, m: nat): real
    requires Sane(inst, assign, st) && m < inst.numMachines
  {
    var ops := st.sequence[m];
    if |ops| > 0 then EndOf(inst, st, Last(ops)) else 0.0
  }

  /** One iteration of the walk: schedule `job`'s next operation. */
  function Step(inst: Instance, assign: seq<seq<nat>>, st: State, job: nat): (r: State)
    requires Sane(inst, assign, st)
    requires job < inst.numJobs && st.scheduled[job] < inst.numOperations[job]
    ensures Sane(inst, assign, r)
    ensures r.scheduled == st.scheduled[job := st.scheduled[job] + 1]
    ensures forall m :: 0 <= m < inst.numMachines && m != assign[job][st.scheduled[job]] ==>
      r.sequence[m] == st.sequence[m]
    ensures r.sequence[assign[job][st.scheduled[job]]]
      == st.sequence[assign[job][st.scheduled[job]]] + [(job, st.scheduled[job])]
    ensures forall p :: Done(st, p) ==>
      StartOf(inst, r, p) == StartOf(inst, st, p) && EndOf(inst, r, p) == EndOf(inst, st, p)
  {
    var o := st.scheduled[job];
    var m := assign[job][o];
    var ready := JobReady(st, (job, o));
    var s := if |st.sequence[m]| > 0 && ready < MachineReady(inst, assign, st, m)
             then MachineReady(inst, assign, st, m) else ready;
    var e := s + inst.processingTime[(job, o, m)];
    State(st.scheduled[job := o + 1],
          st.sequence[m := st.sequence[m] + [(job, o)]],
          st.start[job := st.start[job][o := s]],
          st.end[job := st.end[job][o := e]])
  }

  /** The walk over a release order. Every job of the order must still have
      an operation left when its turn comes. */
  function Run(inst: Instance, assign: seq<seq<nat>>, st: State, order: seq<nat>): (r: State)
    requires Sane(inst, assign, st)
    requires forall i :: 0 <= i < |order| ==> order[i] < inst.numJobs
    requires forall j :: 0 <= j < inst.numJobs ==>
      st.scheduled[j] + multiset(order)[j] <= inst.numOperations[j]
    ensures Sane(inst, assign, r)
    ensures forall j :: 0 <= j < inst.numJobs ==>
      r.scheduled[j] == st.scheduled[j] + multiset(order)[j]
    decreases |order|
  {
    if |order| == 0 then st
    else
      var front := DropLast(order);
      assert order == front + [Last(order)];
      assert multiset(order) == multiset(front) + multiset{Last(order)};
      var mid := Run(inst, assign, st, front);
      Step(inst, assign, mid, Last(order))
  }

  /** Sum of the machine workloads. */
  function TotalLoad(inst: Instance, assign: seq<seq<nat>>, st: State): real
    requires Sane(inst, assign, st)
  {
    Sum(Loads(inst.processingTime, st.sequence))
  }

  /** Every scheduled operation is in its machine's sequence. */
  predicate Covered(inst: Instance, assign: seq<seq<nat>>, st: State)
    requires Sane(inst, assign, st)
  {
    forall j, o :: 0 <= j < inst.numJobs && 0 <= o < st.scheduled[j] ==>
      (j, o) in st.sequence[assign[j][o]]
  }

  /** No machine processes an operation twice. */
  predicate NoRepeats(inst: Instance, assign: seq<seq<nat>>, st: State)
    requires Sane(inst, assign, st)
  {
    forall m :: 0 <= m < inst.numMachines ==> Distinct(st.sequence[m])
  }

  /** Scheduled operations start at a non-negative time, take their processing
      time, and start after the job's previous operation ends. */
  predicate Timed(inst: Instance, assign: seq<seq<nat>>, st: State)
    requires Sane(inst, assign, st)
  {
    forall j, o :: 0 <= j < inst.numJobs && 0 <= o < st.scheduled[j] ==>
      && 0.0 <= st.start[j][o]
      && st.end[j][o] == st.start[j][o] + inst.processingTime[(j, o, assign[j][o])]
      && (o > 0 ==> st.end[j][o - 1] <= st.start[j][o])
  }

  /** Each operation of a machine starts after the previous one ends. */
  predicate MachineOrdered(inst: Instance, assign: seq<seq<nat>>, st: State)
    requires Sane(inst, assign, st)
  {
    forall m, i :: 0 <= m < inst.numMachines && 0 < i < |st.sequence[m]| ==>
      EndOf(inst, st, st.sequence[m][i - 1]) <= StartOf(inst, st, st.sequence[m][i])
  }

  /** Each operation starts exactly when the later of its job's previous
      operation and its machine's previous operation ends. */
  predicate SemiActive(inst: Instance, assign: seq<seq<nat>>, st: State)
    requires Sane(inst, assign, st)
  {
    forall m, i :: 0 <= m < inst.numMachines && 0 <= i < |st.sequence[m]| ==>
      StartOf(inst, st, st.sequence[m][i])
        == Max(JobReady(st, st.sequence[m][i]), PreviousEnd(inst, assign, st, m, i))
  }

  /** When the operation before position `i` of machine `m` ends (0 at the front). */
  function PreviousEnd(inst: Instance, assign: seq<seq<nat>>, st: State, m: nat, i: nat): real
    requires Sane(inst, assign, st) && m < inst.numMachines && i < |st.sequence[m]|
  {
    if i > 0 then EndOf(inst, st, st.sequence[m][i - 1]) else 0.0
  }

  /** No operation ends after the total workload. */
  predicate EndsWithinTotal(inst: Instance, assign: seq<seq<nat>>, st: State)
    requires Sane(inst, assign, st)
  {
    forall j, o :: 0 <= j < inst.numJobs && 0 <= o < st.scheduled[j] ==>
      st.end[j][o] <= TotalLoad(inst, assign, st)
  }

  /** A machine's last operation ends no earlier than its workload. */
  predicate LoadsCovered(inst: Instance, assign: seq<seq<nat>>, st: State)
    requires Sane(inst, assign, st)
  {
    forall m :: 0 <= m < inst.numMachines ==>
      Load(inst.processingTime, m, st.sequence[m]) <= MachineReady(inst, assign, st, m)
  }

  predicate Invariant(inst: Instance, assign: seq<seq<nat>>, st: State)
    requires Sane(inst, assign, st)
  {
    && Covered(inst, assign, st)
    && NoRepeats(inst, assign, st)
    && Timed(inst, assign, st)
    && MachineOrdered(inst, assign, st)
    && SemiActive(inst, assign, st)
    && EndsWithinTotal(inst, assign, st)
    && LoadsCovered(inst, assign, st)
  }
}
