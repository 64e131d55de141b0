/**
  How a random key is read. The key has two halves of `total_num_operations`
  entries each, aligned with the job-major order of (job, operation) pairs.
  The first half picks each operation's machine by counting the thresholds
  k/m (m eligible machines, k >= 1) that the key value exceeds by more than
  epsilon. The second half is paired with the job index and the pairs are
  sorted lexicographically; reading off the jobs gives the release order.
 */
module Keys {
  import opened Common
  import opened Instances

  /** The k-th threshold `k * delta` of the machine-choice loop, `delta = 1/m`. */
  function Threshold(k: nat, m: nat): real
    requires m > 0
  {
    k as real / m as real
  }

  lemma ThresholdBelowOne(k: nat, m: nat)
    requires m > 0
    requires Threshold(k, m) < 1.0
    ensures k < m
  {
  }

  lemma ThresholdMonotone(a: nat, b: nat, m: nat)
    requires m > 0 && a <= b
    ensures Threshold(a, m) <= Threshold(b, m)
  {
  }

  /** Thresholds `k, k+1, ...` passed, counted while they keep being passed. */
  function CountFrom(m: nat, key: real, k: nat): (r: nat)
    requires 1 <= k <= m
    requires key <= 1.0
    ensures k + r <= m
    ensures forall q :: k <= q < k + r ==> Threshold(q, m) + Eps < key
    ensures !(Threshold(k + r, m) + Eps < key)
    decreases m - k
  {
    if Threshold(k, m) + Eps < key then
      ThresholdBelowOne(k, m);
      1 + CountFrom(m, key, k + 1)
    else 0
  }

  /** The machine-choice loop `for (j = delta; j + eps < key; j += delta) it++`:
      the index of the chosen machine among `m` eligible ones. For a key of
      at most 1 it is a valid index: the thresholds 1/m, ..., r/m are passed
      and (r+1)/m is not. */
  function SelectIndex(m: nat, key: real): (r: nat)
    requires m > 0
    requires key <= 1.0
    ensures r < m
    ensures forall q :: 1 <= q <= r ==> Threshold(q, m) + Eps < key
    ensures !(Threshold(r + 1, m) + Eps < key)
  {
    CountFrom(m, key, 1)
  }

  /** The same loop written as in the source, with `j` accumulated by `delta`. */
  method SelectIndexLoop(m: nat, key: real) returns (r: nat)
    requires m > 0
    requires key <= 1.0
    ensures r == SelectIndex(m, key)
  {
    var delta := 1.0 / m as real;
    var j := delta;
    r := 0;
    while j + Eps < key
      invariant r < m
      invariant j == Threshold(r + 1, m)
      invariant forall q :: 1 <= q <= r ==> Threshold(q, m) + Eps < key
      decreases m - r
    {
      ThresholdBelowOne(r + 1, m);
      r := r + 1;
      j := j + delta;
    }
    SelectIndexUnique(m, key, r);
  }

  /** The two conditions on the chosen index pin it down. */
  lemma SelectIndexUnique(m: nat, key: real, r: nat)
    requires m > 0 && key <= 1.0
    requires forall q :: 1 <= q <= r ==> Threshold(q, m) + Eps < key
    requires !(Threshold(r + 1, m) + Eps < key)
    ensures r == SelectIndex(m, key)
  {
  }

  /** Position of (job, 0) in the job-major order: operations of earlier jobs. */
  function Offset(numOperations: seq<nat>, job: nat): nat
    requires job <= |numOperations|
  {
    NatSum(numOperations[..job])
  }

  lemma OffsetBound(numOperations: seq<nat>, job: nat, operation: nat)
    requires job < |numOperations| && operation < numOperations[job]
    ensures Offset(numOperations, job) + operation < NatSum(numOperations)
  {
    NatSumPrefixBound(numOperations, job);
  }

  /** The job of every position of the job-major order. */
  function JobSequence(numOperations: seq<nat>): (r: seq<nat>)
    ensures |r| == NatSum(numOperations)
  {
    if |numOperations| == 0 then []
    else JobSequence(DropLast(numOperations)) + seq(Last(numOperations), _ => |numOperations| - 1)
  }

  /** Position `Offset(job) + operation` belongs to `job`. */
  lemma {:induction false} JobSequenceAt(numOperations: seq<nat>, job: nat, operation: nat)
    requires job < |numOperations| && operation < numOperations[job]
    ensures Offset(numOperations, job) + operation < |JobSequence(numOperations)|
    ensures JobSequence(numOperations)[Offset(numOperations, job) + operation] == job
  {
    OffsetBound(numOperations, job, operation);
    var front := DropLast(numOperations);
    if job < |front| {
      assert front[..job] == numOperations[..job];
      assert front[job] == numOperations[job];
      JobSequenceAt(front, job, operation);
    } else {
      assert numOperations[..job] == front;
    }
  }

  /** Job `j` occupies exactly `numOperations[j]` positions. */
  lemma {:induction false} JobSequenceCount(numOperations: seq<nat>, job: nat)
    requires job < |numOperations|
    ensures multiset(JobSequence(numOperations))[job] == numOperations[job]
  {
    var front := DropLast(numOperations);
    var n := |numOperations| - 1;
    var block := seq(Last(numOperations), _ => n);
    assert multiset(JobSequence(numOperations)) == multiset(JobSequence(front)) + multiset(block);
    RepeatCount(Last(numOperations), n, job);
    if job < n {
      assert front[job] == numOperations[job];
      JobSequenceCount(front, job);
    } else {
      AbsentCount(front, job);
    }
  }

  lemma {:induction false} RepeatCount(count: nat, v: nat, x: nat)
    ensures multiset(seq(count, _ => v))[x] == if x == v then count else 0
  {
    if count > 0 {
      var s := seq(count, _ => v);
      assert s == seq(count - 1, _ => v) + [v];
      RepeatCount(count - 1, v, x);
    }
  }

  /** Jobs beyond the counted ones do not occur. */
  lemma {:induction false} AbsentCount(numOperations: seq<nat>, job: nat)
    requires job >= |numOperations|
    ensures multiset(JobSequence(numOperations))[job] == 0
  {
    if |numOperations| > 0 {
      var front := DropLast(numOperations);
      assert multiset(JobSequence(numOperations))
          == multiset(JobSequence(front)) + multiset(seq(Last(numOperations), _ => |numOperations| - 1));
      RepeatCount(Last(numOperations), |numOperations| - 1, job);
      AbsentCount(front, job);
    }
  }

  /** `std::pair<double, unsigned>` order: by key, ties by job. */
  predicate PairLe(a: (real, nat), b: (real, nat))
  {
    a.0 < b.0 || (a.0 == b.0 && a.1 <= b.1)
  }

  predicate Sorted(s: seq<(real, nat)>)
  {
    forall i, k :: 0 <= i < k < |s| ==> PairLe(s[i], s[k])
  }

  /** Insertion of `x` before the first pair it does not follow. */
  function Insert(x: (real, nat), s: seq<(real, nat)>): (r: seq<(real, nat)>)
    ensures multiset(r) == multiset(s) + multiset{x}
    ensures |r| == |s| + 1
  {
    if |s| == 0 then [x]
    else if PairLe(x, s[0]) then [x] + s
    else
      assert s == [s[0]] + s[1..];
      [s[0]] + Insert(x, s[1..])
  }

  /** Insertion keeps a sequence sorted. */
  lemma {:induction false} InsertSorted(x: (real, nat), s: seq<(real, nat)>)
    requires Sorted(s)
    ensures Sorted(Insert(x, s))
  {
    if |s| > 0 && !PairLe(x, s[0]) {
      var rest := Insert(x, s[1..]);
      InsertSorted(x, s[1..]);
      forall k | 0 <= k < |rest| ensures PairLe(s[0], rest[k]) {
        assert rest[k] in multiset(rest);
        if rest[k] != x {
          assert rest[k] in multiset(s[1..]);
          var i :| 0 <= i < |s[1..]| && s[1..][i] == rest[k];
          assert s[1..][i] == s[i + 1];
        }
      }
      assert Insert(x, s) == [s[0]] + rest;
    }
  }

  /** The sort of the release pairs (insertion sort; any sort gives the same
      result, see `SortedUnique`). */
  function SortPairs(s: seq<(real, nat)>): (r: seq<(real, nat)>)
    ensures Sorted(r)
    ensures multiset(r) == multiset(s)
    ensures |r| == |s|
  {
    if |s| == 0 then []
    else
      assert s == DropLast(s) + [Last(s)];
      InsertSorted(Last(s), SortPairs(DropLast(s)));
      Insert(Last(s), SortPairs(DropLast(s)))
  }

  /** A sorted permutation is unique: `std::sort`'s output is determined by
      its input whatever algorithm produced it. */
  lemma {:induction false} SortedUnique(a: seq<(real, nat)>, b: seq<(real, nat)>)
    requires Sorted(a) && Sorted(b)
    requires multiset(a) == multiset(b)
    ensures a == b
  {
    assert |a| == |multiset(a)| == |multiset(b)| == |b|;
    if |a| > 0 {
      SortedHeads(a, b);
      MultisetTail(a);
      MultisetTail(b);
      SortedUnique(a[1..], b[1..]);
    }
  }

  /** Two sorted permutations of each other start with the same pair. */
  lemma SortedHeads(a: seq<(real, nat)>, b: seq<(real, nat)>)
    requires Sorted(a) && Sorted(b)
    requires multiset(a) == multiset(b)
    requires |a| > 0 && |b| > 0
    ensures a[0] == b[0]
  {
    assert a[0] in multiset(b);
    assert b[0] in multiset(a);
    var i :| 0 <= i < |b| && b[i] == a[0];
    var k :| 0 <= k < |a| && a[k] == b[0];
    assert PairLe(b[0], a[0]);
    assert PairLe(a[0], b[0]);
  }

  lemma MultisetTail<T>(a: seq<T>)
    requires |a| > 0
    ensures multiset(a[1..]) == multiset(a) - multiset{a[0]}
  {
    assert a == [a[0]] + a[1..];
  }

  /** The job components of a pair sequence. */
  function Jobs(s: seq<(real, nat)>): (r: seq<nat>)
    ensures |r| == |s|
    ensures forall i :: 0 <= i < |s| ==> r[i] == s[i].1
  {
    seq(|s|, i requires 0 <= i < |s| => s[i].1)
  }

  lemma JobsAppend(a: seq<(real, nat)>, b: seq<(real, nat)>)
    ensures Jobs(a + b) == Jobs(a) + Jobs(b)
  {
  }

  /** Pair sequences with the same pairs have the same jobs. */
  lemma {:induction false} JobsPermutation(a: seq<(real, nat)>, b: seq<(real, nat)>)
    requires multiset(a) == multiset(b)
    ensures multiset(Jobs(a)) == multiset(Jobs(b))
    decreases |a|
  {
    if |a| > 0 {
      var x := a[0];
      assert x in multiset(b);
      var i :| 0 <= i < |b| && b[i] == x;
      var b' := b[..i] + b[i + 1..];
      assert b == b[..i] + [x] + b[i + 1..];
      assert a == [x] + a[1..];
      assert multiset(b) == multiset(b[..i]) + multiset{x} + multiset(b[i + 1..]);
      assert multiset(b') == multiset(b[..i]) + multiset(b[i + 1..]);
      assert multiset(a) == multiset{x} + multiset(a[1..]);
      RemoveOne(x, multiset(a[1..]), multiset(b'));
      JobsPermutation(a[1..], b');
      JobsAppend([x], a[1..]);
      JobsAppend(b[..i] + [x], b[i + 1..]);
      JobsAppend(b[..i], [x]);
      JobsAppend(b[..i], b[i + 1..]);
      assert Jobs([x]) == [x.1];
    }
  }

  lemma RemoveOne<T>(x: T, p: multiset<T>, q: multiset<T>)
    requires multiset{x} + p == multiset{x} + q
    ensures p == q
  {
    assert forall y :: p[y] == (multiset{x} + p)[y] - (if y == x then 1 else 0);
    assert forall y :: q[y] == (multiset{x} + q)[y] - (if y == x then 1 else 0);
  }

  /** Sorting keeps the multiset of jobs. */
  lemma JobsSortPairs(s: seq<(real, nat)>)
    ensures multiset(Jobs(SortPairs(s))) == multiset(Jobs(s))
  {
    JobsPermutation(SortPairs(s), s);
  }

  /** A key of the decoder's shape: two halves of `total_num_operations`
      entries, the first half (the machine choice) at most 1. A larger entry
      would move the machine iterator past the end of the eligible list. */
  predicate KeyFits(inst: Instance, key: seq<real>)
  {
    && |key| == 2 * inst.totalNumOperations
    && forall i :: 0 <= i < inst.totalNumOperations ==> key[i] <= 1.0
  }

  /** The machine chosen for (job, operation) by the first half of the key. */
  function ChosenMachine(inst: Instance, key: seq<real>, job: nat, operation: nat): (m: nat)
    requires WellFormed(inst) && IsValid(inst) && KeyFits(inst, key)
    requires job < inst.numJobs && operation < inst.numOperations[job]
    ensures m in inst.machinesOfOperation[job][operation]
    ensures m < inst.numMachines
  {
    OffsetBound(inst.numOperations, job, operation);
    var eligible := inst.machinesOfOperation[job][operation];
    eligible[SelectIndex(|eligible|, key[Offset(inst.numOperations, job) + operation])]
  }

  /** The assignment a key encodes: one eligible machine per operation. */
  function AssignMachines(inst: Instance, key: seq<real>): (a: seq<seq<nat>>)
    requires WellFormed(inst) && IsValid(inst) && KeyFits(inst, key)
    ensures |a| == inst.numJobs
    ensures forall j :: 0 <= j < inst.numJobs ==> |a[j]| == inst.numOperations[j]
    ensures forall j, o :: 0 <= j < inst.numJobs && 0 <= o < inst.numOperations[j] ==>
      a[j][o] == ChosenMachine(inst, key, j, o)
  {
    seq(inst.numJobs, j requires 0 <= j < inst.numJobs =>
      seq(inst.numOperations[j], o requires 0 <= o < inst.numOperations[j] =>
        ChosenMachine(inst, key, j, o)))
  }

  /** `permutation[i] = (key[total + i], job of position i)`. */
  function ReleasePairs(inst: Instance, key: seq<real>): (p: seq<(real, nat)>)
    requires WellFormed(inst) && |key| == 2 * inst.totalNumOperations
    ensures |p| == inst.totalNumOperations
  {
    var jobs := JobSequence(inst.numOperations);
    seq(inst.totalNumOperations, i requires 0 <= i < inst.totalNumOperations =>
      (key[inst.totalNumOperations + i], jobs[i]))
  }

  /** The release order: the jobs of the sorted pairs. Every job occurs once
      per operation, and every entry is a job index. */
  function ReleaseOrder(inst: Instance, key: seq<real>): (order: seq<nat>)
    requires WellFormed(inst) && |key| == 2 * inst.totalNumOperations
    ensures |order| == inst.totalNumOperations
  {
    Jobs(SortPairs(ReleasePairs(inst, key)))
  }

  lemma ReleaseOrderCounts(inst: Instance, key: seq<real>)
    requires WellFormed(inst) && |key| == 2 * inst.totalNumOperations
    ensures forall j :: 0 <= j < inst.numJobs ==>
      multiset(ReleaseOrder(inst, key))[j] == inst.numOperations[j]
    ensures forall i :: 0 <= i < |ReleaseOrder(inst, key)| ==> ReleaseOrder(inst, key)[i] < inst.numJobs
  {
    var pairs := ReleasePairs(inst, key);
    JobsSortPairs(pairs);
    assert Jobs(pairs) == JobSequence(inst.numOperations);
    forall j | 0 <= j < inst.numJobs
      ensures multiset(ReleaseOrder(inst, key))[j] == inst.numOperations[j]
    {
      JobSequenceCount(inst.numOperations, j);
    }
    var order := ReleaseOrder(inst, key);
    forall i | 0 <= i < |order| ensures order[i] < inst.numJobs {
      assert order[i] in multiset(order);
      if order[i] >= inst.numJobs {
        AbsentCount(inst.numOperations, order[i]);
        assert false;
      }
    }
  }
}
