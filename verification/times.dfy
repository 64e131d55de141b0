/**
  Folds over the processing-time map. The source iterates a `std::map` in key
  order; with exact arithmetic the order of a sum or a maximum does not matter,
  so the folds are stated over key sets, and the per-machine workload of a
  schedule (a fold over a machine's operation sequence) is related to them.
 */
module Times {
  import opened Common

  /** Some element of a non-empty set. */
  ghost function Pick(ks: set<Triple>): (k: Triple)
    requires ks != {}
    ensures k in ks
  {
    var k :| k in ks; k
  }

  /** Sum of the processing times of the keys `ks`. */
  ghost function TimeSum(pt: map<Triple, real>, ks: set<Triple>): real
    requires ks <= pt.Keys
    decreases ks
  {
    if ks == {} then 0.0 else var k := Pick(ks); pt[k] + TimeSum(pt, ks - {k})
  }

  /** Largest processing time of the keys `ks`, seeded with 0.0 as in the source. */
  ghost function MaxTime(pt: map<Triple, real>, ks: set<Triple>): (r: real)
    requires ks <= pt.Keys
    ensures r >= 0.0
    ensures forall k :: k in ks ==> pt[k] <= r
    ensures r == 0.0 || exists k :: k in ks && pt[k] == r
    decreases ks
  {
    if ks == {} then 0.0
    else
      var k := Pick(ks);
      var m := MaxTime(pt, ks - {k});
      if m < pt[k] then pt[k] else m
  }

  /** The keys of the processing-time map whose machine is `m`. */
  ghost function MachineKeys(pt: map<Triple, real>, m: nat): (ks: set<Triple>)
    ensures ks <= pt.Keys
  {
    set k | k in pt.Keys && k.2 == m
  }

  /** `working_time[m]` of the primal-bound computation: the sum of all
      processing times listed for machine `m`. */
  ghost function WorkingTime(pt: map<Triple, real>, m: nat): real
  {
    TimeSum(pt, MachineKeys(pt, m))
  }

  predicate TimesNonNegative(pt: map<Triple, real>)
  {
    forall k :: k in pt ==> pt[k] >= 0.0
  }

  /** Removing any key of the set peels off exactly its time, whichever
      element the definition happened to pick. */
  lemma {:induction false} TimeSumRemove(pt: map<Triple, real>, ks: set<Triple>, k: Triple)
    requires ks <= pt.Keys
    requires k in ks
    ensures TimeSum(pt, ks) == pt[k] + TimeSum(pt, ks - {k})
    decreases ks
  {
    var p := Pick(ks);
    if p != k {
      calc {
        TimeSum(pt, ks);
        pt[p] + TimeSum(pt, ks - {p});
        { TimeSumRemove(pt, ks - {p}, k); }
        pt[p] + pt[k] + TimeSum(pt, ks - {p} - {k});
        { assert ks - {p} - {k} == ks - {k} - {p}; }
        pt[k] + (pt[p] + TimeSum(pt, ks - {k} - {p}));
        { TimeSumRemove(pt, ks - {k}, p); }
        pt[k] + TimeSum(pt, ks - {k});
      }
    }
  }

  lemma {:induction false} TimeSumNonNegative(pt: map<Triple, real>, ks: set<Triple>)
    requires ks <= pt.Keys
    requires TimesNonNegative(pt)
    ensures TimeSum(pt, ks) >= 0.0
    decreases ks
  {
    if ks != {} {
      TimeSumNonNegative(pt, ks - {Pick(ks)});
    }
  }

  /** With non-negative times, a sum over fewer keys is smaller. */
  lemma {:induction false} TimeSumSubset(pt: map<Triple, real>, small: set<Triple>, large: set<Triple>)
    requires small <= large <= pt.Keys
    requires TimesNonNegative(pt)
    ensures TimeSum(pt, small) <= TimeSum(pt, large)
    decreases large
  {
    if small != large {
      var x := Pick(large);
      TimeSumRemove(pt, large, x);
      if x in small {
        TimeSumRemove(pt, small, x);
        TimeSumSubset(pt, small - {x}, large - {x});
      } else {
        TimeSumSubset(pt, small, large - {x});
      }
    }
  }

  /** The machine `m` times of the operations `ops` are all listed. */
  predicate ListedOn(pt: map<Triple, real>, m: nat, ops: seq<Op>)
  {
    forall i :: 0 <= i < |ops| ==> (ops[i].0, ops[i].1, m) in pt
  }

  /** Workload of machine `m` when it processes `ops`: the inner
      `workload += processing_time.at(...)` loop. */
  function Load(pt: map<Triple, real>, m: nat, ops: seq<Op>): real
    requires ListedOn(pt, m, ops)
  {
    if |ops| == 0 then 0.0
    else Load(pt, m, DropLast(ops)) + pt[(Last(ops).0, Last(ops).1, m)]
  }

  /** The keys `(job, operation, m)` of the operations `ops`. */
  ghost function KeysOf(ops: seq<Op>, m: nat): set<Triple>
  {
    set i | 0 <= i < |ops| :: (ops[i].0, ops[i].1, m)
  }

  /** Appending an operation adds its time to the workload. */
  lemma LoadAppend(pt: map<Triple, real>, m: nat, ops: seq<Op>, x: Op)
    requires ListedOn(pt, m, ops)
    requires (x.0, x.1, m) in pt
    ensures ListedOn(pt, m, ops + [x])
    ensures Load(pt, m, ops + [x]) == Load(pt, m, ops) + pt[(x.0, x.1, m)]
  {
    assert DropLast(ops + [x]) == ops;
  }

  lemma {:induction false} LoadNonNegative(pt: map<Triple, real>, m: nat, ops: seq<Op>)
    requires ListedOn(pt, m, ops)
    requires TimesNonNegative(pt)
    ensures Load(pt, m, ops) >= 0.0
  {
    if |ops| > 0 {
      LoadNonNegative(pt, m, DropLast(ops));
    }
  }

  /** The workload of a duplicate-free operation sequence is the sum over its keys. */
  lemma {:induction false} LoadIsTimeSum(pt: map<Triple, real>, m: nat, ops: seq<Op>)
    requires ListedOn(pt, m, ops)
    requires Distinct(ops)
    ensures KeysOf(ops, m) <= pt.Keys
    ensures Load(pt, m, ops) == TimeSum(pt, KeysOf(ops, m))
  {
    if |ops| > 0 {
      var front := DropLast(ops);
      var z := Last(ops);
      var t := (z.0, z.1, m);
      assert Distinct(front);
      LoadIsTimeSum(pt, m, front);
      assert KeysOf(ops, m) == KeysOf(front, m) + {t} by {
        forall k | k in KeysOf(ops, m) ensures k in KeysOf(front, m) + {t} {
          var i :| 0 <= i < |ops| && k == (ops[i].0, ops[i].1, m);
          if i < |front| {
            assert front[i] == ops[i];
          }
        }
        forall k | k in KeysOf(front, m) ensures k in KeysOf(ops, m) {
          var i :| 0 <= i < |front| && k == (front[i].0, front[i].1, m);
          assert ops[i] == front[i];
        }
      }
      assert t !in KeysOf(front, m);
      TimeSumRemove(pt, KeysOf(ops, m), t);
      assert KeysOf(ops, m) - {t} == KeysOf(front, m);
    }
  }

  /** A duplicate-free sequence of operations on machine `m` carries at most
      the machine's working time. */
  lemma LoadAtMostWorkingTime(pt: map<Triple, real>, m: nat, ops: seq<Op>)
    requires ListedOn(pt, m, ops)
    requires Distinct(ops)
    requires TimesNonNegative(pt)
    ensures Load(pt, m, ops) <= WorkingTime(pt, m)
  {
    LoadIsTimeSum(pt, m, ops);
    TimeSumSubset(pt, KeysOf(ops, m), MachineKeys(pt, m));
  }

  /** Every machine's sequence has its processing times listed. */
  predicate AllListed(pt: map<Triple, real>, sequences: seq<seq<Op>>)
  {
    forall m :: 0 <= m < |sequences| ==> ListedOn(pt, m, sequences[m])
  }

  /** The workload of every machine. */
  function Loads(pt: map<Triple, real>, sequences: seq<seq<Op>>): (w: seq<real>)
    requires AllListed(pt, sequences)
    ensures |w| == |sequences|
    ensures forall m :: 0 <= m < |sequences| ==> w[m] == Load(pt, m, sequences[m])
  {
    seq(|sequences|, m requires 0 <= m < |sequences| => Load(pt, m, sequences[m]))
  }

  lemma LoadsNonNegative(pt: map<Triple, real>, sequences: seq<seq<Op>>)
    requires AllListed(pt, sequences)
    requires TimesNonNegative(pt)
    ensures AllNonNegative(Loads(pt, sequences))
  {
    forall m | 0 <= m < |sequences| ensures Loads(pt, sequences)[m] >= 0.0 {
      LoadNonNegative(pt, m, sequences[m]);
    }
  }
}
