/**
  What the walk keeps true. Each property of `Walk.Invariant` is carried
  across one step by its own lemma; `RunKeeps` chains them over a whole
  release order, and `RunAgrees` shows that the walk never looks at the
  entries of operations it has not scheduled yet.
 */
module WalkProofs {
  import opened Common
  import opened Times
  import opened Instances
  import opened Walk

  /** The arguments of one step. */
  predicate CanStep(inst: Instance, assign: seq<seq<nat>>, st: State, job: nat)
  {
    && Sane(inst, assign, st)
    && job < inst.numJobs
    && st.scheduled[job] < inst.numOperations[job]
  }

  /** Scheduled operations end at non-negative times. */
  lemma EndsNonNegative(inst: Instance, assign: seq<seq<nat>>, st: State)
    requires Sane(inst, assign, st) && Timed(inst, assign, st)
    requires TimesNonNegative(inst.processingTime)
    ensures forall p: Op :: Done(st, p) ==> EndOf(inst, st, p) >= 0.0
  {
    forall p: Op | Done(st, p) ensures EndOf(inst, st, p) >= 0.0 {
      assert inst.processingTime[(p.0, p.1, assign[p.0][p.1])] >= 0.0;
    }
  }

  /** The new operation's start: at least both ready times, and no earlier
      than 0. */
  lemma StepStart(inst: Instance, assign: seq<seq<nat>>, st: State, job: nat)
    requires CanStep(inst, assign, st, job)
    requires Timed(inst, assign, st)
    requires TimesNonNegative(inst.processingTime)
    ensures var o := st.scheduled[job];
            var m := assign[job][o];
            var r := Step(inst, assign, st, job);
            && 0.0 <= JobReady(st, (job, o))
            && 0.0 <= MachineReady(inst, assign, st, m)
            && r.start[job][o] == Max(JobReady(st, (job, o)), MachineReady(inst, assign, st, m))
            && r.end[job][o] == r.start[job][o] + inst.processingTime[(job, o, m)]
  {
    EndsNonNegative(inst, assign, st);
    var o := st.scheduled[job];
    if o > 0 {
      assert Done(st, (job, o - 1));
    }
    var m := assign[job][o];
    if |st.sequence[m]| > 0 {
      assert Done(st, Last(st.sequence[m]));
    }
  }

  /** One step adds the new operation's time to the total workload. */
  lemma StepLoad(inst: Instance, assign: seq<seq<nat>>, st: State, job: nat)
    requires CanStep(inst, assign, st, job)
    ensures var o := st.scheduled[job];
            var m := assign[job][o];
            var r := Step(inst, assign, st, job);
            && Load(inst.processingTime, m, r.sequence[m])
               == Load(inst.processingTime, m, st.sequence[m]) + inst.processingTime[(job, o, m)]
            && TotalLoad(inst, assign, r) == TotalLoad(inst, assign, st) + inst.processingTime[(job, o, m)]
  {
    var pt := inst.processingTime;
    var o := st.scheduled[job];
    var m := assign[job][o];
    var r := Step(inst, assign, st, job);
    LoadAppend(pt, m, st.sequence[m], (job, o));
    var before := Loads(pt, st.sequence);
    var after := Loads(pt, r.sequence);
    assert after == before[m := before[m] + pt[(job, o, m)]];
    SumUpdate(before, m, before[m] + pt[(job, o, m)]);
  }

  lemma StepCovered(inst: Instance, assign: seq<seq<nat>>, st: State, job: nat)
    requires CanStep(inst, assign, st, job)
    requires Covered(inst, assign, st)
    ensures Covered(inst, assign, Step(inst, assign, st, job))
  {
    var o := st.scheduled[job];
    var m := assign[job][o];
    var r := Step(inst, assign, st, job);
    forall j, q | 0 <= j < inst.numJobs && 0 <= q < r.scheduled[j]
      ensures (j, q) in r.sequence[assign[j][q]]
    {
      if (j, q) != (job, o) {
        assert (j, q) in st.sequence[assign[j][q]];
      }
    }
  }

  lemma StepNoRepeats(inst: Instance, assign: seq<seq<nat>>, st: State, job: nat)
    requires CanStep(inst, assign, st, job)
    requires NoRepeats(inst, assign, st)
    ensures NoRepeats(inst, assign, Step(inst, assign, st, job))
  {
    var o := st.scheduled[job];
    var m := assign[job][o];
    var ops := st.sequence[m];
    forall i | 0 <= i < |ops| ensures ops[i] != (job, o) {
      assert Done(st, ops[i]);
    }
  }

  lemma StepTimed(inst: Instance, assign: seq<seq<nat>>, st: State, job: nat)
    requires CanStep(inst, assign, st, job)
    requires Timed(inst, assign, st)
    requires TimesNonNegative(inst.processingTime)
    ensures Timed(inst, assign, Step(inst, assign, st, job))
  {
    StepStart(inst, assign, st, job);
    var o := st.scheduled[job];
    var r := Step(inst, assign, st, job);
    forall j, q | 0 <= j < inst.numJobs && 0 <= q < r.scheduled[j]
      ensures && 0.0 <= r.start[j][q]
              && r.end[j][q] == r.start[j][q] + inst.processingTime[(j, q, assign[j][q])]
              && (q > 0 ==> r.end[j][q - 1] <= r.start[j][q])
    {
      if (j, q) != (job, o) {
        assert Done(st, (j, q));
        if q > 0 {
          assert Done(st, (j, q - 1));
        }
      } else if q > 0 {
        assert Done(st, (j, q - 1));
      }
    }
  }

  lemma StepMachineOrdered(inst: Instance, assign: seq<seq<nat>>, st: State, job: nat)
    requires CanStep(inst, assign, st, job)
    requires Timed(inst, assign, st)
    requires MachineOrdered(inst, assign, st)
    requires TimesNonNegative(inst.processingTime)
    ensures MachineOrdered(inst, assign, Step(inst, assign, st, job))
  {
    StepStart(inst, assign, st, job);
    var o := st.scheduled[job];
    var m := assign[job][o];
    var r := Step(inst, assign, st, job);
    forall m', i | 0 <= m' < inst.numMachines && 0 < i < |r.sequence[m']|
      ensures EndOf(inst, r, r.sequence[m'][i - 1]) <= StartOf(inst, r, r.sequence[m'][i])
    {
      if m' != m || i < |st.sequence[m]| {
        assert r.sequence[m'][i] == st.sequence[m'][i];
        assert r.sequence[m'][i - 1] == st.sequence[m'][i - 1];
        assert Done(st, st.sequence[m'][i]);
        assert Done(st, st.sequence[m'][i - 1]);
      } else {
        assert r.sequence[m'][i - 1] == Last(st.sequence[m]);
        assert Done(st, Last(st.sequence[m]));
      }
    }
  }

  lemma StepSemiActive(inst: Instance, assign: seq<seq<nat>>, st: State, job: nat)
    requires CanStep(inst, assign, st, job)
    requires Timed(inst, assign, st)
    requires SemiActive(inst, assign, st)
    requires TimesNonNegative(inst.processingTime)
    ensures SemiActive(inst, assign, Step(inst, assign, st, job))
  {
    StepStart(inst, assign, st, job);
    var o := st.scheduled[job];
    var m := assign[job][o];
    var r := Step(inst, assign, st, job);
    forall m', i | 0 <= m' < inst.numMachines && 0 <= i < |r.sequence[m']|
      ensures StartOf(inst, r, r.sequence[m'][i])
        == Max(JobReady(r, r.sequence[m'][i]), PreviousEnd(inst, assign, r, m', i))
    {
      var p := r.sequence[m'][i];
      if p.1 > 0 {
        assert Done(st, (p.0, p.1 - 1));
      }
      if m' != m || i < |st.sequence[m]| {
        assert p == st.sequence[m'][i];
        assert Done(st, p);
        assert JobReady(r, p) == JobReady(st, p);
        assert StartOf(inst, r, p) == StartOf(inst, st, p);
        if i > 0 {
          assert r.sequence[m'][i - 1] == st.sequence[m'][i - 1];
          assert Done(st, st.sequence[m'][i - 1]);
          assert EndOf(inst, r, r.sequence[m'][i - 1]) == EndOf(inst, st, st.sequence[m'][i - 1]);
        }
        assert StartOf(inst, st, p) == Max(JobReady(st, p), PreviousEnd(inst, assign, st, m', i));
      } else {
        assert p == (job, o);
        assert JobReady(r, p) == JobReady(st, p);
        if i > 0 {
          assert r.sequence[m'][i - 1] == Last(st.sequence[m]);
          assert Done(st, Last(st.sequence[m]));
          assert EndOf(inst, r, r.sequence[m'][i - 1]) == MachineReady(inst, assign, st, m);
        } else {
          assert MachineReady(inst, assign, st, m) == 0.0;
        }
        assert StartOf(inst, r, p) == r.start[job][o];

      }
    }
  }

  lemma StepEndsWithinTotal(inst: Instance, assign: seq<seq<nat>>, st: State, job: nat)
    requires CanStep(inst, assign, st, job)
    requires Timed(inst, assign, st)
    requires EndsWithinTotal(inst, assign, st)
    requires TimesNonNegative(inst.processingTime)
    ensures EndsWithinTotal(inst, assign, Step(inst, assign, st, job))
  {
    StepStart(inst, assign, st, job);
    StepLoad(inst, assign, st, job);
    LoadsNonNegative(inst.processingTime, st.sequence);
    SumNonNegative(Loads(inst.processingTime, st.sequence));
    var o := st.scheduled[job];
    var m := assign[job][o];
    var r := Step(inst, assign, st, job);
    assert inst.processingTime[(job, o, m)] >= 0.0;
    if o > 0 {
      assert Done(st, (job, o - 1));
    }
    if |st.sequence[m]| > 0 {
      assert Done(st, Last(st.sequence[m]));
    }
    forall j, q | 0 <= j < inst.numJobs && 0 <= q < r.scheduled[j]
      ensures r.end[j][q] <= TotalLoad(inst, assign, r)
    {
      if (j, q) != (job, o) {
        assert Done(st, (j, q));
      }
    }
  }

  lemma StepLoadsCovered(inst: Instance, assign: seq<seq<nat>>, st: State, job: nat)
    requires CanStep(inst, assign, st, job)
    requires Timed(inst, assign, st)
    requires LoadsCovered(inst, assign, st)
    requires TimesNonNegative(inst.processingTime)
    ensures LoadsCovered(inst, assign, Step(inst, assign, st, job))
  {
    StepStart(inst, assign, st, job);
    StepLoad(inst, assign, st, job);
    var o := st.scheduled[job];
    var m := assign[job][o];
    var r := Step(inst, assign, st, job);
    forall m' | 0 <= m' < inst.numMachines
      ensures Load(inst.processingTime, m', r.sequence[m']) <= MachineReady(inst, assign, r, m')
    {
      if m' != m && |st.sequence[m']| > 0 {
        assert Done(st, Last(st.sequence[m']));
      }
    }
  }

  /** One step keeps the invariant. */
  lemma StepKeeps(inst: Instance, assign: seq<seq<nat>>, st: State, job: nat)
    requires CanStep(inst, assign, st, job)
    requires Invariant(inst, assign, st)
    requires TimesNonNegative(inst.processingTime)
    ensures Invariant(inst, assign, Step(inst, assign, st, job))
  {
    StepCovered(inst, assign, st, job);
    StepNoRepeats(inst, assign, st, job);
    StepTimed(inst, assign, st, job);
    StepMachineOrdered(inst, assign, st, job);
    StepSemiActive(inst, assign, st, job);
    StepEndsWithinTotal(inst, assign, st, job);
    StepLoadsCovered(inst, assign, st, job);
  }

  /** One step adds at most the largest processing time to the total workload. */
  lemma StepLoadBound(inst: Instance, assign: seq<seq<nat>>, st: State, job: nat)
    requires CanStep(inst, assign, st, job)
    ensures TotalLoad(inst, assign, Step(inst, assign, st, job))
      <= TotalLoad(inst, assign, st) + MaxTime(inst.processingTime, inst.processingTime.Keys)
  {
    StepLoad(inst, assign, st, job);
  }

  /** A release order the walk can follow from `st`. */
  predicate Feasible(inst: Instance, st: State, order: seq<nat>)
    requires Shaped(inst, st)
  {
    && (forall i :: 0 <= i < |order| ==> order[i] < inst.numJobs)
    && (forall j :: 0 <= j < inst.numJobs ==>
          st.scheduled[j] + multiset(order)[j] <= inst.numOperations[j])
  }

  /** The last step of a walk over a non-empty order. */
  lemma RunFront(inst: Instance, assign: seq<seq<nat>>, st: State, order: seq<nat>)
    requires Sane(inst, assign, st) && Feasible(inst, st, order)
    requires |order| > 0
    ensures Feasible(inst, st, DropLast(order))
    ensures CanStep(inst, assign, Run(inst, assign, st, DropLast(order)), Last(order))
    ensures Run(inst, assign, st, order)
      == Step(inst, assign, Run(inst, assign, st, DropLast(order)), Last(order))
  {
    var front := DropLast(order);
    assert order == front + [Last(order)];
    assert multiset(order) == multiset(front) + multiset{Last(order)};
  }

  /** The whole walk keeps the invariant. */
  lemma {:induction false} RunKeeps(inst: Instance, assign: seq<seq<nat>>, st: State, order: seq<nat>)
    requires Sane(inst, assign, st) && Feasible(inst, st, order)
    requires Invariant(inst, assign, st)
    requires TimesNonNegative(inst.processingTime)
    ensures Invariant(inst, assign, Run(inst, assign, st, order))
    decreases |order|
  {
    if |order| > 0 {
      var front := DropLast(order);
      RunFront(inst, assign, st, order);
      RunKeeps(inst, assign, st, front);
      StepKeeps(inst, assign, Run(inst, assign, st, front), Last(order));
    }
  }

  /** Each step of the walk adds at most the largest processing time to the
      total workload. */
  lemma {:induction false} RunLoadBound(inst: Instance, assign: seq<seq<nat>>, st: State, order: seq<nat>)
    requires Sane(inst, assign, st) && Feasible(inst, st, order)
    ensures TotalLoad(inst, assign, Run(inst, assign, st, order))
      <= TotalLoad(inst, assign, st) + Multiple(|order|, MaxTime(inst.processingTime, inst.processingTime.Keys))
    decreases |order|
  {
    if |order| > 0 {
      var front := DropLast(order);
      RunFront(inst, assign, st, order);
      RunLoadBound(inst, assign, st, front);
      StepLoadBound(inst, assign, Run(inst, assign, st, front), Last(order));
    }
  }

  /** Two states that differ only in the entries of unscheduled operations. */
  predicate Agree(inst: Instance, a: State, b: State)
    requires Shaped(inst, a) && Shaped(inst, b)
  {
    && a.scheduled == b.scheduled
    && a.sequence == b.sequence
    && forall j, q :: 0 <= j < inst.numJobs && 0 <= q < a.scheduled[j] ==>
         a.start[j][q] == b.start[j][q] && a.end[j][q] == b.end[j][q]
  }

  lemma StepAgrees(inst: Instance, assign: seq<seq<nat>>, a: State, b: State, job: nat)
    requires CanStep(inst, assign, a, job) && CanStep(inst, assign, b, job)
    requires Agree(inst, a, b)
    ensures Agree(inst, Step(inst, assign, a, job), Step(inst, assign, b, job))
  {
    var o := a.scheduled[job];
    var m := assign[job][o];
    if o > 0 {
      assert Done(a, (job, o - 1));
    }
    if |a.sequence[m]| > 0 {
      assert Done(a, Last(a.sequence[m]));
    }
  }

  /** The walk's result depends on the starting buffers only through the
      entries of operations already scheduled. */
  lemma {:induction false} RunAgrees(inst: Instance, assign: seq<seq<nat>>, a: State, b: State, order: seq<nat>)
    requires Sane(inst, assign, a) && Sane(inst, assign, b)
    requires Feasible(inst, a, order)
    requires Agree(inst, a, b)
    ensures Feasible(inst, b, order)
    ensures Agree(inst, Run(inst, assign, a, order), Run(inst, assign, b, order))
    decreases |order|
  {
    if |order| > 0 {
      var front := DropLast(order);
      RunFront(inst, assign, a, order);
      RunAgrees(inst, assign, a, b, front);
      RunFront(inst, assign, b, order);
      StepAgrees(inst, assign, Run(inst, assign, a, front), Run(inst, assign, b, front), Last(order));
    }
  }
}
