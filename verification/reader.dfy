/**
  The instance reader `operator>>(istream, Instance)` over a sequence of
  whitespace-separated tokens: `num_jobs num_machines`, then per job its
  operation count and per operation the count of eligible machines followed
  by that many `machine time` pairs. Machine indices are stored as read.
  Every pair read for (job, operation) goes to three places: the eligible
  list of the operation, the operation list of the machine and the time map.
 */
module InstanceReader {
  import opened Common
  import opened Times
  import opened Instances
  import opened InstanceText

  /** The partially read instance. */
  datatype Builder = Builder(
    numOperations: seq<nat>,
    total: nat,
    machinesOfOperation: seq<seq<seq<nat>>>,
    operationsOfMachine: seq<seq<Op>>,
    processingTime: map<Triple, real>)

  datatype Parsed = Parsed(builder: Builder, next: nat)

  /** The builder's three indices describe one relation, and every index is in range. */
  ghost predicate Consistent(b: Builder, numMachines: nat)
  {
    && |b.machinesOfOperation| == |b.numOperations|
    && (forall j :: 0 <= j < |b.machinesOfOperation| ==>
          |b.machinesOfOperation[j]| == b.numOperations[j])
    && b.total == NatSum(b.numOperations)
    && |b.operationsOfMachine| == numMachines
    && (forall j, o, i ::
          (0 <= j < |b.machinesOfOperation| && 0 <= o < |b.machinesOfOperation[j]|
           && 0 <= i < |b.machinesOfOperation[j][o]|) ==>
            b.machinesOfOperation[j][o][i] < numMachines)
    && (forall m, i :: 0 <= m < |b.operationsOfMachine| && 0 <= i < |b.operationsOfMachine[m]| ==>
          OpInRange(b.numOperations, b.operationsOfMachine[m][i]))
    && (forall k :: k in b.processingTime ==>
          OpInRange(b.numOperations, (k.0, k.1)) && k.2 < numMachines)
    && EligibleOf(b.machinesOfOperation) == ListedOf(b.operationsOfMachine) == b.processingTime.Keys
  }

  /** The three writes of one `machine time` pair read for (job, operation). */
  function AddEntry(b: Builder, job: nat, operation: nat, machine: nat, time: real): Builder
    requires job < |b.machinesOfOperation| && operation < |b.machinesOfOperation[job]|
    requires machine < |b.operationsOfMachine|
  {
    var mo := b.machinesOfOperation;
    b.(machinesOfOperation := mo[job := mo[job][operation := mo[job][operation] + [machine]]],
       operationsOfMachine := b.operationsOfMachine[machine := b.operationsOfMachine[machine] + [(job, operation)]],
       processingTime := b.processingTime[(job, operation, machine) := time])
  }

  /** A new job with `n` operations, each with an empty eligible list. */
  function AddJob(b: Builder, n: nat): Builder
  {
    b.(numOperations := b.numOperations + [n],
       total := b.total + n,
       machinesOfOperation := b.machinesOfOperation + [seq(n, _ => [])])
  }

  lemma EligibleOfAppend(mo: seq<seq<seq<nat>>>, j: nat, o: nat, m: nat)
    requires j < |mo| && o < |mo[j]|
    ensures EligibleOf(mo[j := mo[j][o := mo[j][o] + [m]]]) == EligibleOf(mo) + {(j, o, m)}
  {
    var mo' := mo[j := mo[j][o := mo[j][o] + [m]]];
    forall t | t in EligibleOf(mo') ensures t in EligibleOf(mo) + {(j, o, m)} {
      var a: nat, c: nat, i: nat :| a < |mo'| && c < |mo'[a]| && i < |mo'[a][c]| && t == (a, c, mo'[a][c][i]);
      if (a, c) != (j, o) || i < |mo[j][o]| {
        assert mo'[a][c][i] == mo[a][c][i];
      }
    }
    forall t | t in EligibleOf(mo) + {(j, o, m)} ensures t in EligibleOf(mo') {
      if t == (j, o, m) {
        assert mo'[j][o][|mo[j][o]|] == m;
      } else {
        var a: nat, c: nat, i: nat :| a < |mo| && c < |mo[a]| && i < |mo[a][c]| && t == (a, c, mo[a][c][i]);
        assert mo'[a][c][i] == mo[a][c][i];
      }
    }
  }

  lemma ListedOfAppend(om: seq<seq<Op>>, m: nat, j: nat, o: nat)
    requires m < |om|
    ensures ListedOf(om[m := om[m] + [(j, o)]]) == ListedOf(om) + {(j, o, m)}
  {
    var om' := om[m := om[m] + [(j, o)]];
    forall t | t in ListedOf(om') ensures t in ListedOf(om) + {(j, o, m)} {
      var a: nat, i: nat :| a < |om'| && i < |om'[a]| && t == (om'[a][i].0, om'[a][i].1, a);
      if a != m || i < |om[m]| {
        assert om'[a][i] == om[a][i];
      }
    }
    forall t | t in ListedOf(om) + {(j, o, m)} ensures t in ListedOf(om') {
      if t == (j, o, m) {
        assert om'[m][|om[m]|] == (j, o);
      } else {
        var a: nat, i: nat :| a < |om| && i < |om[a]| && t == (om[a][i].0, om[a][i].1, a);
        assert om'[a][i] == om[a][i];
      }
    }
  }

  lemma AddEntryConsistent(b: Builder, numMachines: nat, job: nat, operation: nat, machine: nat, time: real)
    requires Consistent(b, numMachines)
    requires job < |b.machinesOfOperation| && operation < |b.machinesOfOperation[job]|
    requires machine < |b.operationsOfMachine|
    ensures Consistent(AddEntry(b, job, operation, machine, time), numMachines)
  {
    var b' := AddEntry(b, job, operation, machine, time);
    EligibleOfAppend(b.machinesOfOperation, job, operation, machine);
    ListedOfAppend(b.operationsOfMachine, machine, job, operation);
    assert b'.processingTime.Keys == b.processingTime.Keys + {(job, operation, machine)};
    var mo := b.machinesOfOperation;
    var mo' := b'.machinesOfOperation;
    forall j, o, i | 0 <= j < |mo'| && 0 <= o < |mo'[j]| && 0 <= i < |mo'[j][o]|
      ensures mo'[j][o][i] < numMachines
    {
      if (j, o) != (job, operation) || i < |mo[j][o]| {
        assert mo'[j][o][i] == mo[j][o][i];
      }
    }
    var om := b.operationsOfMachine;
    var om' := b'.operationsOfMachine;
    forall m, i | 0 <= m < |om'| && 0 <= i < |om'[m]|
      ensures OpInRange(b'.numOperations, om'[m][i])
    {
      if m != machine || i < |om[m]| {
        assert om'[m][i] == om[m][i];
      }
    }
  }

  lemma EligibleOfAddJob(mo: seq<seq<seq<nat>>>, n: nat)
    ensures EligibleOf(mo + [seq(n, _ => [])]) == EligibleOf(mo)
  {
    var mo' := mo + [seq(n, _ => [])];
    forall t | t in EligibleOf(mo') ensures t in EligibleOf(mo) {
      var a: nat, c: nat, i: nat :| a < |mo'| && c < |mo'[a]| && i < |mo'[a][c]| && t == (a, c, mo'[a][c][i]);
      assert a < |mo|;
      assert mo'[a] == mo[a];
    }
    forall t | t in EligibleOf(mo) ensures t in EligibleOf(mo') {
      var a: nat, c: nat, i: nat :| a < |mo| && c < |mo[a]| && i < |mo[a][c]| && t == (a, c, mo[a][c][i]);
      assert mo'[a] == mo[a];
    }
  }

  lemma AddJobConsistent(b: Builder, numMachines: nat, n: nat)
    requires Consistent(b, numMachines)
    ensures Consistent(AddJob(b, n), numMachines)
    ensures |AddJob(b, n).machinesOfOperation| == |b.machinesOfOperation| + 1
    ensures |AddJob(b, n).machinesOfOperation[|b.machinesOfOperation|]| == n
  {
    var b' := AddJob(b, n);
    EligibleOfAddJob(b.machinesOfOperation, n);
    assert DropLast(b'.numOperations) == b.numOperations;
    forall j | 0 <= j < |b.numOperations| ensures b'.numOperations[j] == b.numOperations[j] {
    }
    var mo := b.machinesOfOperation;
    var mo' := b'.machinesOfOperation;
    forall j, o, i | 0 <= j < |mo'| && 0 <= o < |mo'[j]| && 0 <= i < |mo'[j][o]|
      ensures mo'[j][o][i] < numMachines
    {
      assert j < |mo|;
      assert mo'[j] == mo[j];
    }
  }

  /** What a reader step keeps: the jobs read so far, their operation counts
      and the machine count. */
  ghost predicate SameShape(b: Builder, b': Builder)
  {
    && b'.numOperations == b.numOperations
    && b'.total == b.total
    && |b'.machinesOfOperation| == |b.machinesOfOperation|
    && (forall j :: 0 <= j < |b.machinesOfOperation| ==>
          |b'.machinesOfOperation[j]| == |b.machinesOfOperation[j]|)
    && |b'.operationsOfMachine| == |b.operationsOfMachine|
  }

  /** The `while (num_machines_of_operation--)` loop: `count` pairs for (job, operation). */
  function ReadEntries(toks: seq<Token>, pos: nat, job: nat, operation: nat, count: nat,
                       b: Builder): (r: Result<Parsed>)
    requires job < |b.machinesOfOperation| && operation < |b.machinesOfOperation[job]|
    ensures r.Ok? ==> SameShape(b, r.value.builder)
    decreases count
  {
    if count == 0 then Ok(Parsed(b, pos))
    else
      match ReadCount(toks, pos)
      case Err(e) => Err(e)
      case Ok(machine) =>
        match ReadTime(toks, pos + 1)
        case Err(e) => Err(e)
        case Ok(time) =>
          if machine >= |b.operationsOfMachine| then Err(MachineOutOfRange)
          else ReadEntries(toks, pos + 2, job, operation, count - 1, AddEntry(b, job, operation, machine, time))
  }

  /** The operations `operation .. n-1` of `job`. */
  function ReadOperations(toks: seq<Token>, pos: nat, job: nat, operation: nat, b: Builder): (r: Result<Parsed>)
    requires job < |b.machinesOfOperation| && operation <= |b.machinesOfOperation[job]|
    ensures r.Ok? ==> SameShape(b, r.value.builder)
    decreases |b.machinesOfOperation[job]| - operation
  {
    if operation == |b.machinesOfOperation[job]| then Ok(Parsed(b, pos))
    else
      match ReadCount(toks, pos)
      case Err(e) => Err(e)
      case Ok(count) =>
        match ReadEntries(toks, pos + 1, job, operation, count, b)
        case Err(e) => Err(e)
        case Ok(p) => ReadOperations(toks, p.next, job, operation + 1, p.builder)
  }

  /** The jobs `|b.machinesOfOperation| .. numJobs-1`. */
  function ReadJobs(toks: seq<Token>, pos: nat, numJobs: nat, b: Builder): (r: Result<Parsed>)
    requires |b.machinesOfOperation| <= numJobs
    ensures r.Ok? ==> |r.value.builder.machinesOfOperation| == numJobs
    ensures r.Ok? ==> |r.value.builder.operationsOfMachine| == |b.operationsOfMachine|
    decreases numJobs - |b.machinesOfOperation|
  {
    if |b.machinesOfOperation| == numJobs then Ok(Parsed(b, pos))
    else
      match ReadCount(toks, pos)
      case Err(e) => Err(e)
      case Ok(n) =>
        var b' := AddJob(b, n);
        match ReadOperations(toks, pos + 1, |b.machinesOfOperation|, 0, b')
        case Err(e) => Err(e)
        case Ok(p) => ReadJobs(toks, p.next, numJobs, p.builder)
  }

  /** The pair loop keeps the builder consistent. */
  lemma {:induction false} ReadEntriesConsistent(toks: seq<Token>, pos: nat, job: nat, operation: nat,
                                                 count: nat, b: Builder, numMachines: nat)
    requires Consistent(b, numMachines)
    requires job < |b.machinesOfOperation| && operation < |b.machinesOfOperation[job]|
    ensures var r := ReadEntries(toks, pos, job, operation, count, b);
            r.Ok? ==> Consistent(r.value.builder, numMachines)
    decreases count
  {
    if count > 0 && ReadCount(toks, pos).Ok? && ReadTime(toks, pos + 1).Ok?
       && ReadCount(toks, pos).value < |b.operationsOfMachine|
    {
      var machine, time := ReadCount(toks, pos).value, ReadTime(toks, pos + 1).value;
      AddEntryConsistent(b, numMachines, job, operation, machine, time);
      ReadEntriesConsistent(toks, pos + 2, job, operation, count - 1,
                            AddEntry(b, job, operation, machine, time), numMachines);
    }
  }

  /** The operation loop keeps the builder consistent. */
  lemma {:induction false} ReadOperationsConsistent(toks: seq<Token>, pos: nat, job: nat, operation: nat,
                                                    b: Builder, numMachines: nat)
    requires Consistent(b, numMachines)
    requires job < |b.machinesOfOperation| && operation <= |b.machinesOfOperation[job]|
    ensures var r := ReadOperations(toks, pos, job, operation, b);
            r.Ok? ==> Consistent(r.value.builder, numMachines)
    decreases |b.machinesOfOperation[job]| - operation
  {
    if operation < |b.machinesOfOperation[job]| && ReadCount(toks, pos).Ok? {
      var count := ReadCount(toks, pos).value;
      ReadEntriesConsistent(toks, pos + 1, job, operation, count, b, numMachines);
      var re := ReadEntries(toks, pos + 1, job, operation, count, b);
      if re.Ok? {
        ReadOperationsConsistent(toks, re.value.next, job, operation + 1, re.value.builder, numMachines);
      }
    }
  }

  /** The job loop keeps the builder consistent. */
  lemma {:induction false} ReadJobsConsistent(toks: seq<Token>, pos: nat, numJobs: nat, b: Builder,
                                              numMachines: nat)
    requires Consistent(b, numMachines)
    requires |b.machinesOfOperation| <= numJobs
    ensures var r := ReadJobs(toks, pos, numJobs, b);
            r.Ok? ==> Consistent(r.value.builder, numMachines)
    decreases numJobs - |b.machinesOfOperation|
  {
    if |b.machinesOfOperation| < numJobs && ReadCount(toks, pos).Ok? {
      var n := ReadCount(toks, pos).value;
      AddJobConsistent(b, numMachines, n);
      var b' := AddJob(b, n);
      ReadOperationsConsistent(toks, pos + 1, |b.machinesOfOperation|, 0, b', numMachines);
      var ro := ReadOperations(toks, pos + 1, |b.machinesOfOperation|, 0, b');
      if ro.Ok? {
        ReadJobsConsistent(toks, ro.value.next, numJobs, ro.value.builder, numMachines);
      }
    }
  }

  /** The empty builder for `numMachines` machines. */
  function EmptyBuilder(numMachines: nat): Builder
  {
    Builder([], 0, [], seq(numMachines, _ => []), map[])
  }

  lemma EmptyBuilderConsistent(numMachines: nat)
    ensures Consistent(EmptyBuilder(numMachines), numMachines)
  {
    var b := EmptyBuilder(numMachines);
    assert EligibleOf(b.machinesOfOperation) == {};
    assert ListedOf(b.operationsOfMachine) == {};
  }

  /** One pair as it is stored: the (job, operation) being read, its machine and its time. */
  datatype Entry = Entry(job: nat, operation: nat, machine: nat, time: real)

  /** The key of the time map an entry writes. */
  function Key(e: Entry): Triple
  {
    (e.job, e.operation, e.machine)
  }

  /** The pairs of one operation as entries. */
  function Tag(job: nat, operation: nat, ps: Pairs): seq<Entry>
  {
    seq(|ps|, i requires 0 <= i < |ps| => Entry(job, operation, ps[i].0, ps[i].1))
  }

  /** The entries of the operations `from ..` of `job`, in file order. */
  function OperationEntries(job: nat, from: nat, ops: seq<Pairs>): seq<Entry>
    decreases |ops|
  {
    if |ops| == 0 then [] else Tag(job, from, ops[0]) + OperationEntries(job, from + 1, ops[1..])
  }

  /** The entries of the jobs `from ..`, in file order. */
  function JobEntries(from: nat, jobs: seq<seq<Pairs>>): seq<Entry>
    decreases |jobs|
  {
    if |jobs| == 0 then [] else OperationEntries(from, 0, jobs[0]) + JobEntries(from + 1, jobs[1..])
  }

  /** The machines of the pairs, in file order. */
  function Machines(ps: Pairs): seq<nat>
  {
    seq(|ps|, i requires 0 <= i < |ps| => ps[i].0)
  }

  /** The operation counts of the jobs. */
  function Counts(jobs: seq<seq<Pairs>>): seq<nat>
  {
    seq(|jobs|, j requires 0 <= j < |jobs| => |jobs[j]|)
  }

  /** The machines of the entries of (j, o), in reading order. */
  function MachinesFor(es: seq<Entry>, j: nat, o: nat): seq<nat>
  {
    if |es| == 0 then []
    else MachinesFor(DropLast(es), j, o)
         + (if Last(es).job == j && Last(es).operation == o then [Last(es).machine] else [])
  }

  /** The (job, operation) of the entries for machine `m`, in reading order. */
  function OperationsOn(es: seq<Entry>, m: nat): seq<Op>
  {
    if |es| == 0 then []
    else OperationsOn(DropLast(es), m)
         + (if Last(es).machine == m then [(Last(es).job, Last(es).operation)] else [])
  }

  /** The time map after the entries are stored in reading order. */
  function Store(pt: map<Triple, real>, es: seq<Entry>): map<Triple, real>
  {
    if |es| == 0 then pt else Store(pt, DropLast(es))[Key(Last(es)) := Last(es).time]
  }

  /** `b'` is `b` with the entries `es` read: each entry's machine appended to
      its operation's eligible list, its (job, operation) appended to its
      machine's list, and its time stored under its key. */
  ghost predicate Extends(b: Builder, b': Builder, es: seq<Entry>)
  {
    && b'.numOperations == b.numOperations
    && b'.total == b.total
    && |b'.machinesOfOperation| == |b.machinesOfOperation|
    && (forall j :: 0 <= j < |b.machinesOfOperation| ==>
          |b'.machinesOfOperation[j]| == |b.machinesOfOperation[j]|)
    && (forall j, o :: 0 <= j < |b.machinesOfOperation| && 0 <= o < |b.machinesOfOperation[j]| ==>
          b'.machinesOfOperation[j][o] == b.machinesOfOperation[j][o] + MachinesFor(es, j, o))
    && |b'.operationsOfMachine| == |b.operationsOfMachine|
    && (forall m :: 0 <= m < |b.operationsOfMachine| ==>
          b'.operationsOfMachine[m] == b.operationsOfMachine[m] + OperationsOn(es, m))
    && b'.processingTime == Store(b.processingTime, es)
  }

  lemma {:induction false} MachinesForAppend(a: seq<Entry>, c: seq<Entry>, j: nat, o: nat)
    ensures MachinesFor(a + c, j, o) == MachinesFor(a, j, o) + MachinesFor(c, j, o)
    decreases |c|
  {
    if |c| == 0 {
      assert a + c == a;
    } else {
      assert DropLast(a + c) == a + DropLast(c);
      assert Last(a + c) == Last(c);
      MachinesForAppend(a, DropLast(c), j, o);
    }
  }

  lemma {:induction false} OperationsOnAppend(a: seq<Entry>, c: seq<Entry>, m: nat)
    ensures OperationsOn(a + c, m) == OperationsOn(a, m) + OperationsOn(c, m)
    decreases |c|
  {
    if |c| == 0 {
      assert a + c == a;
    } else {
      assert DropLast(a + c) == a + DropLast(c);
      assert Last(a + c) == Last(c);
      OperationsOnAppend(a, DropLast(c), m);
    }
  }

  lemma {:induction false} StoreAppend(pt: map<Triple, real>, a: seq<Entry>, c: seq<Entry>)
    ensures Store(pt, a + c) == Store(Store(pt, a), c)
    decreases |c|
  {
    if |c| == 0 {
      assert a + c == a;
    } else {
      assert DropLast(a + c) == a + DropLast(c);
      assert Last(a + c) == Last(c);
      StoreAppend(pt, a, DropLast(c));
    }
  }

  /** Storing entries in order keeps, for each key, the time of its last
      entry, and leaves the keys no entry writes as they were. */
  lemma {:induction false} StoreLastWrite(pt: map<Triple, real>, es: seq<Entry>, k: Triple)
    ensures k in Store(pt, es) <==> k in pt || exists i :: 0 <= i < |es| && Key(es[i]) == k
    ensures forall i :: 0 <= i < |es| && Key(es[i]) == k
                        && (forall i' :: i < i' < |es| ==> Key(es[i']) != k) ==>
              Store(pt, es)[k] == es[i].time
    ensures (forall i :: 0 <= i < |es| ==> Key(es[i]) != k) && k in pt ==> Store(pt, es)[k] == pt[k]
    decreases |es|
  {
    if |es| > 0 {
      var es' := DropLast(es);
      StoreLastWrite(pt, es', k);
      assert forall i :: 0 <= i < |es'| ==> es'[i] == es[i];
      if Key(Last(es)) != k {
        forall i | 0 <= i < |es| && Key(es[i]) == k && (forall i' :: i < i' < |es| ==> Key(es[i']) != k)
          ensures Store(pt, es)[k] == es[i].time
        {
          assert i < |es'|;
          assert forall i' :: i < i' < |es'| ==> Key(es'[i']) != k;
        }
      }
    }
  }

  lemma ExtendsNothing(b: Builder)
    ensures Extends(b, b, [])
  {
  }

  /** The three writes of one pair extend the builder by its entry. */
  lemma ExtendsAddEntry(b: Builder, job: nat, operation: nat, machine: nat, time: real)
    requires job < |b.machinesOfOperation| && operation < |b.machinesOfOperation[job]|
    requires machine < |b.operationsOfMachine|
    ensures Extends(b, AddEntry(b, job, operation, machine, time), [Entry(job, operation, machine, time)])
  {
    var e := Entry(job, operation, machine, time);
    assert DropLast([e]) == [] && Last([e]) == e;
  }

  lemma ExtendsTrans(b: Builder, b1: Builder, b2: Builder, es1: seq<Entry>, es2: seq<Entry>)
    requires Extends(b, b1, es1) && Extends(b1, b2, es2)
    ensures Extends(b, b2, es1 + es2)
  {
    var mo := b.machinesOfOperation;
    forall j, o | 0 <= j < |mo| && 0 <= o < |mo[j]|
      ensures b2.machinesOfOperation[j][o] == mo[j][o] + MachinesFor(es1 + es2, j, o)
    {
      MachinesForAppend(es1, es2, j, o);
      assert b1.machinesOfOperation[j][o] == mo[j][o] + MachinesFor(es1, j, o);
    }
    forall m | 0 <= m < |b.operationsOfMachine|
      ensures b2.operationsOfMachine[m] == b.operationsOfMachine[m] + OperationsOn(es1 + es2, m)
    {
      OperationsOnAppend(es1, es2, m);
    }
    StoreAppend(b.processingTime, es1, es2);
  }

  /** Every entry belongs to a job below `n`. */
  ghost predicate EntriesBelow(es: seq<Entry>, n: nat)
  {
    forall i :: 0 <= i < |es| ==> es[i].job < n
  }

  lemma {:induction false} MachinesForAbsent(es: seq<Entry>, j: nat, o: nat)
    requires forall i :: 0 <= i < |es| ==> (es[i].job, es[i].operation) != (j, o)
    ensures MachinesFor(es, j, o) == []
    decreases |es|
  {
    if |es| > 0 {
      assert forall i :: 0 <= i < |es| - 1 ==> DropLast(es)[i] == es[i];
      MachinesForAbsent(DropLast(es), j, o);
    }
  }

  /** A new job commutes with entries of the jobs read before it. */
  lemma ExtendsAddJob(b: Builder, b1: Builder, es: seq<Entry>, n: nat)
    requires Extends(b, b1, es)
    requires EntriesBelow(es, |b.machinesOfOperation|)
    ensures Extends(AddJob(b, n), AddJob(b1, n), es)
  {
    var J := |b.machinesOfOperation|;
    forall o | 0 <= o < n ensures MachinesFor(es, J, o) == [] {
      MachinesForAbsent(es, J, o);
    }
    var mo := AddJob(b, n).machinesOfOperation;
    var mo1 := AddJob(b1, n).machinesOfOperation;
    forall j, o | 0 <= j < |mo| && 0 <= o < |mo[j]|
      ensures mo1[j][o] == mo[j][o] + MachinesFor(es, j, o)
    {
      if j < J {
        assert mo[j] == b.machinesOfOperation[j] && mo1[j] == b1.machinesOfOperation[j];
      } else {
        assert mo[j] == mo1[j] == seq(n, _ => []);
      }
    }
  }

  /** New jobs with the given operation counts, in order. */
  function AddJobs(b: Builder, ns: seq<nat>): Builder
    decreases |ns|
  {
    if |ns| == 0 then b else AddJobs(AddJob(b, ns[0]), ns[1..])
  }

  lemma {:induction false} AddJobsShape(b: Builder, ns: seq<nat>)
    ensures AddJobs(b, ns).numOperations == b.numOperations + ns
    ensures |AddJobs(b, ns).machinesOfOperation| == |b.machinesOfOperation| + |ns|
    ensures forall j :: 0 <= j < |b.machinesOfOperation| ==>
              AddJobs(b, ns).machinesOfOperation[j] == b.machinesOfOperation[j]
    ensures forall k :: 0 <= k < |ns| ==>
              AddJobs(b, ns).machinesOfOperation[|b.machinesOfOperation| + k] == seq(ns[k], _ => [])
    ensures AddJobs(b, ns).operationsOfMachine == b.operationsOfMachine
    ensures AddJobs(b, ns).processingTime == b.processingTime
    decreases |ns|
  {
    if |ns| > 0 {
      var b1 := AddJob(b, ns[0]);
      AddJobsShape(b1, ns[1..]);
      assert b1.numOperations + ns[1..] == b.numOperations + ns;
      forall k | 0 <= k < |ns|
        ensures AddJobs(b, ns).machinesOfOperation[|b.machinesOfOperation| + k] == seq(ns[k], _ => [])
      {
        if k > 0 {
          assert |b.machinesOfOperation| + k == |b1.machinesOfOperation| + (k - 1);
          assert ns[1..][k - 1] == ns[k];
        }
      }
    }
  }

  /** The slot `AddJobs` adds for the `k`-th count: that many empty lists. */
  lemma AddJobsSlot(b: Builder, ns: seq<nat>, k: nat, slot: nat)
    requires k < |ns| && slot == |b.machinesOfOperation| + k
    ensures |AddJobs(b, ns).machinesOfOperation| == |b.machinesOfOperation| + |ns|
    ensures |AddJobs(b, ns).machinesOfOperation[slot]| == ns[k]
    ensures forall o :: 0 <= o < ns[k] ==> AddJobs(b, ns).machinesOfOperation[slot][o] == []
  {
    AddJobsShape(b, ns);
    EmptyLists(AddJobs(b, ns).machinesOfOperation[slot], ns[k]);
  }

  lemma {:induction false} ExtendsAddJobs(b: Builder, b1: Builder, es: seq<Entry>, ns: seq<nat>)
    requires Extends(b, b1, es)
    requires EntriesBelow(es, |b.machinesOfOperation|)
    ensures Extends(AddJobs(b, ns), AddJobs(b1, ns), es)
    decreases |ns|
  {
    if |ns| > 0 {
      ExtendsAddJob(b, b1, es, ns[0]);
      ExtendsAddJobs(AddJob(b, ns[0]), AddJob(b1, ns[0]), es, ns[1..]);
    }
  }

  /** The machines read for (j, o) out of one operation's entries. */
  lemma {:induction false} MachinesForTag(job: nat, operation: nat, ps: Pairs, j: nat, o: nat)
    ensures MachinesFor(Tag(job, operation, ps), j, o)
            == if (job, operation) == (j, o) then Machines(ps) else []
    decreases |ps|
  {
    if |ps| > 0 {
      assert DropLast(Tag(job, operation, ps)) == Tag(job, operation, DropLast(ps));
      MachinesForTag(job, operation, DropLast(ps), j, o);
      if (job, operation) == (j, o) {
        assert Machines(ps) == Machines(DropLast(ps)) + [Last(ps).0];
      }
    }
  }

  lemma {:induction false} MachinesForOperations(job: nat, from: nat, ops: seq<Pairs>, j: nat, o: nat)
    ensures MachinesFor(OperationEntries(job, from, ops), j, o)
            == if j == job && from <= o < from + |ops| then Machines(ops[o - from]) else []
    decreases |ops|
  {
    if |ops| > 0 {
      MachinesForOperations(job, from + 1, ops[1..], j, o);
      MachinesForOperationsStep(job, from, ops, j, o);
    }
  }

  /** The step of `MachinesForOperations`: the first operation's entries,
      then the later ones. */
  lemma MachinesForOperationsStep(job: nat, from: nat, ops: seq<Pairs>, j: nat, o: nat)
    requires |ops| > 0
    requires MachinesFor(OperationEntries(job, from + 1, ops[1..]), j, o)
             == if j == job && from + 1 <= o < from + 1 + |ops[1..]| then Machines(ops[1..][o - (from + 1)]) else []
    ensures MachinesFor(OperationEntries(job, from, ops), j, o)
            == if j == job && from <= o < from + |ops| then Machines(ops[o - from]) else []
  {
    var t := Tag(job, from, ops[0]);
    var rest := OperationEntries(job, from + 1, ops[1..]);
    assert OperationEntries(job, from, ops) == t + rest;
    MachinesForTag(job, from, ops[0], j, o);
    MachinesForEither(t, rest, j, o);
    if j == job && o == from {
      assert MachinesFor(rest, j, o) == [];
      assert MachinesFor(t, j, o) == Machines(ops[0]);
    } else if j == job && from < o < from + |ops| {
      assert MachinesFor(t, j, o) == [];
      assert ops[1..][o - (from + 1)] == ops[o - from];
      assert MachinesFor(rest, j, o) == Machines(ops[o - from]);
    } else {
      assert MachinesFor(t, j, o) == [];
      assert MachinesFor(rest, j, o) == [];
    }
  }

  lemma {:induction false} MachinesForJobs(from: nat, jobs: seq<seq<Pairs>>, j: nat, o: nat)
    ensures MachinesFor(JobEntries(from, jobs), j, o)
            == if from <= j < from + |jobs| && o < |jobs[j - from]| then Machines(jobs[j - from][o]) else []
    decreases |jobs|
  {
    if |jobs| > 0 {
      MachinesForJobs(from + 1, jobs[1..], j, o);
      MachinesForJobsStep(from, jobs, j, o);
    }
  }

  /** The step of `MachinesForJobs`: the first job's entries, then the later
      ones. */
  lemma MachinesForJobsStep(from: nat, jobs: seq<seq<Pairs>>, j: nat, o: nat)
    requires |jobs| > 0
    requires MachinesFor(JobEntries(from + 1, jobs[1..]), j, o)
             == if from + 1 <= j < from + 1 + |jobs[1..]| && o < |jobs[1..][j - (from + 1)]|
                then Machines(jobs[1..][j - (from + 1)][o]) else []
    ensures MachinesFor(JobEntries(from, jobs), j, o)
            == if from <= j < from + |jobs| && o < |jobs[j - from]| then Machines(jobs[j - from][o]) else []
  {
    var first := OperationEntries(from, 0, jobs[0]);
    var rest := JobEntries(from + 1, jobs[1..]);
    assert JobEntries(from, jobs) == first + rest;
    MachinesForOperations(from, 0, jobs[0], j, o);
    MachinesForEither(first, rest, j, o);
    if j == from {
      assert MachinesFor(rest, j, o) == [];
      assert MachinesFor(first, j, o) == if o < |jobs[0]| then Machines(jobs[0][o]) else [];
    } else if from < j < from + |jobs| {
      assert MachinesFor(first, j, o) == [];
      assert jobs[1..][j - (from + 1)] == jobs[j - from];
      assert MachinesFor(rest, j, o) == if o < |jobs[j - from]| then Machines(jobs[j - from][o]) else [];
    } else {
      assert MachinesFor(first, j, o) == [];
      assert MachinesFor(rest, j, o) == [];
    }
  }

  /** When one side of a concatenation has no entries for (j, o), the other
      side has all of them. */
  lemma MachinesForEither(a: seq<Entry>, c: seq<Entry>, j: nat, o: nat)
    ensures MachinesFor(a, j, o) == [] ==> MachinesFor(a + c, j, o) == MachinesFor(c, j, o)
    ensures MachinesFor(c, j, o) == [] ==> MachinesFor(a + c, j, o) == MachinesFor(a, j, o)
  {
    MachinesForAppend(a, c, j, o);
    assert [] + MachinesFor(c, j, o) == MachinesFor(c, j, o);
    assert MachinesFor(a, j, o) + [] == MachinesFor(a, j, o);
  }

  lemma {:induction false} OperationEntriesOfJob(job: nat, from: nat, ops: seq<Pairs>)
    ensures forall i :: 0 <= i < |OperationEntries(job, from, ops)| ==>
              OperationEntries(job, from, ops)[i].job == job
    decreases |ops|
  {
    if |ops| > 0 {
      OperationEntriesOfJob(job, from + 1, ops[1..]);
      var t: seq<Entry> := Tag(job, from, ops[0]);
      var rest: seq<Entry> := OperationEntries(job, from + 1, ops[1..]);
      forall i | 0 <= i < |t + rest| ensures (t + rest)[i].job == job {
        if i >= |t| {
          assert (t + rest)[i] == rest[i - |t|];
        }
      }
    }
  }

  /** The whole reader: counts, jobs, then `compute_primal_bound`. A missing or
      ill-typed token and a machine index not below `num_machines` are errors. */
  ghost function ReadInstance(toks: seq<Token>): (r: Result<Instance>)
    ensures r.Ok? ==> WellFormed(r.value) && BoundsComputed(r.value)
    ensures r.Ok? ==> r.value.totalNumOperations == NatSum(r.value.numOperations)
    ensures r.Ok? ==> r.value.numObjectives == NumObjectives
    ensures r.Ok? ==> EligibleTriples(r.value) == ListedTriples(r.value)
                       == r.value.processingTime.Keys
    ensures r.Ok? ==> && |toks| >= 2
                       && toks[0] == Integer(r.value.numJobs)
                       && toks[1] == Integer(r.value.numMachines)
    ensures r.Ok? ==> var jobs := JobsAt(toks, 2, r.value.numJobs);
                       && jobs.Ok? && JobsBelow(jobs.value, r.value.numMachines)
                       && Agree(toks, 0, Render(r.value.numMachines, jobs.value))
                       && Describes(r.value, r.value.numMachines, jobs.value)
  {
    match ReadCount(toks, 0)
    case Err(e) => Err(e)
    case Ok(numJobs) =>
      match ReadCount(toks, 1)
      case Err(e) => Err(e)
      case Ok(numMachines) =>
        match ReadJobs(toks, 2, numJobs, EmptyBuilder(numMachines))
        case Err(e) => Err(e)
        case Ok(p) =>
          ReadBodyFacts(toks, numJobs, numMachines);
          Ok(Assemble(p.builder, numJobs, numMachines))
  }

  /** The instance a consistent builder holding `numJobs` jobs stands for,
      with its bounds computed. */
  ghost function Assemble(b: Builder, numJobs: nat, numMachines: nat): (inst: Instance)
    requires Consistent(b, numMachines) && |b.machinesOfOperation| == numJobs
    ensures WellFormed(inst) && BoundsComputed(inst)
    ensures inst.totalNumOperations == NatSum(inst.numOperations)
    ensures inst.numObjectives == NumObjectives
    ensures EligibleTriples(inst) == ListedTriples(inst) == inst.processingTime.Keys
    ensures inst.numJobs == numJobs && inst.numMachines == numMachines
    ensures Builder(inst.numOperations, inst.totalNumOperations, inst.machinesOfOperation,
                    inst.operationsOfMachine, inst.processingTime) == b
  {
    Instance(b.processingTime, numJobs, b.numOperations, b.total, numMachines,
             b.machinesOfOperation, b.operationsOfMachine, NumObjectives,
             PrimalBound(b.processingTime, numJobs, numMachines, b.total))
  }

  /** What a successful read of the jobs after a valid header gives: a
      consistent builder, and jobs that are there, are rendered by the
      tokens and are held by the builder. */
  lemma ReadBodyFacts(toks: seq<Token>, numJobs: nat, numMachines: nat)
    requires ReadCount(toks, 0) == Ok(numJobs) && ReadCount(toks, 1) == Ok(numMachines)
    requires ReadJobs(toks, 2, numJobs, EmptyBuilder(numMachines)).Ok?
    ensures var b := ReadJobs(toks, 2, numJobs, EmptyBuilder(numMachines)).value.builder;
      Consistent(b, numMachines) && |b.machinesOfOperation| == numJobs
    ensures var jobs := JobsAt(toks, 2, numJobs);
      && jobs.Ok? && JobsBelow(jobs.value, numMachines)
      && Agree(toks, 0, Render(numMachines, jobs.value))
      && Holds(ReadJobs(toks, 2, numJobs, EmptyBuilder(numMachines)).value.builder, numMachines, jobs.value)
  {
    EmptyBuilderConsistent(numMachines);
    ReadJobsConsistent(toks, 2, numJobs, EmptyBuilder(numMachines), numMachines);
    ReadJobsFromEmpty(toks, numJobs, numMachines);
    JobsAtAgree(toks, 2, numJobs);
    RenderAgree(toks, numMachines, JobsAt(toks, 2, numJobs).value);
  }

  lemma TagCons(job: nat, operation: nat, p: (nat, real), ps: Pairs)
    ensures Tag(job, operation, [p] + ps) == [Entry(job, operation, p.0, p.1)] + Tag(job, operation, ps)
  {
  }

  lemma PairsBelowCons(p: (nat, real), ps: Pairs, n: nat)
    ensures PairsBelow([p] + ps, n) <==> p.0 < n && PairsBelow(ps, n)
  {
    assert ([p] + ps)[0] == p;
    assert forall i :: 0 <= i < |ps| ==> ([p] + ps)[i + 1] == ps[i];
  }

  /** One pair read: `PairsAt` takes it and then the rest. */
  lemma PairsAtCons(toks: seq<Token>, pos: nat, count: nat)
    requires count > 0 && ReadCount(toks, pos).Ok? && ReadTime(toks, pos + 1).Ok?
    ensures PairsAt(toks, pos, count).Ok? <==> PairsAt(toks, pos + 2, count - 1).Ok?
    ensures PairsAt(toks, pos, count).Ok? ==>
      PairsAt(toks, pos, count).value
        == [(ReadCount(toks, pos).value, ReadTime(toks, pos + 1).value)] + PairsAt(toks, pos + 2, count - 1).value
  {
  }

  /** One pair read: the pair loop stores it and goes on with the rest. */
  lemma ReadEntriesCons(toks: seq<Token>, pos: nat, job: nat, operation: nat, count: nat, b: Builder)
    requires job < |b.machinesOfOperation| && operation < |b.machinesOfOperation[job]|
    requires count > 0 && ReadCount(toks, pos).Ok? && ReadTime(toks, pos + 1).Ok?
    requires ReadCount(toks, pos).value < |b.operationsOfMachine|
    ensures var b1 := AddEntry(b, job, operation, ReadCount(toks, pos).value, ReadTime(toks, pos + 1).value);
      ReadEntries(toks, pos, job, operation, count, b)
        == ReadEntries(toks, pos + 2, job, operation, count - 1, b1)
  {
  }

  /** The pair loop succeeds exactly when the `count` pairs at `pos` are
      there and every one names a machine below `num_machines`; it then stops
      right after them. */
  lemma {:induction false} ReadEntriesAccepts(toks: seq<Token>, pos: nat, job: nat, operation: nat,
                                              count: nat, b: Builder)
    requires job < |b.machinesOfOperation| && operation < |b.machinesOfOperation[job]|
    ensures var r := ReadEntries(toks, pos, job, operation, count, b);
            var ps := PairsAt(toks, pos, count);
      && (r.Ok? <==> ps.Ok? && PairsBelow(ps.value, |b.operationsOfMachine|))
      && (r.Ok? ==> r.value.next == pos + 2 * count)
    decreases count
  {
    if count > 0 {
      var rm := ReadCount(toks, pos);
      var rt := ReadTime(toks, pos + 1);
      if rm.Ok? && rt.Ok? {
        var m, t := rm.value, rt.value;
        PairsAtCons(toks, pos, count);
        var rest := PairsAt(toks, pos + 2, count - 1);
        if rest.Ok? {
          PairsBelowCons((m, t), rest.value, |b.operationsOfMachine|);
        }
        if m < |b.operationsOfMachine| {
          ReadEntriesCons(toks, pos, job, operation, count, b);
          ReadEntriesAccepts(toks, pos + 2, job, operation, count - 1, AddEntry(b, job, operation, m, t));
        }
      }
    }
  }

  /** A successful pair loop extends the builder by the pairs' entries, in
      file order. */
  lemma {:induction false} ReadEntriesExtends(toks: seq<Token>, pos: nat, job: nat, operation: nat,
                                              count: nat, b: Builder)
    requires job < |b.machinesOfOperation| && operation < |b.machinesOfOperation[job]|
    requires ReadEntries(toks, pos, job, operation, count, b).Ok?
    ensures PairsAt(toks, pos, count).Ok?
    ensures Extends(b, ReadEntries(toks, pos, job, operation, count, b).value.builder,
                    Tag(job, operation, PairsAt(toks, pos, count).value))
    decreases count
  {
    ReadEntriesAccepts(toks, pos, job, operation, count, b);
    if count == 0 {
      ExtendsNothing(b);
    } else {
      var m, t := ReadCount(toks, pos).value, ReadTime(toks, pos + 1).value;
      PairsAtCons(toks, pos, count);
      var rest := PairsAt(toks, pos + 2, count - 1).value;
      var b1 := AddEntry(b, job, operation, m, t);
      ReadEntriesCons(toks, pos, job, operation, count, b);
      ReadEntriesExtends(toks, pos + 2, job, operation, count - 1, b1);
      var b2 := ReadEntries(toks, pos + 2, job, operation, count - 1, b1).value.builder;
      ExtendsAddEntry(b, job, operation, m, t);
      ExtendsTrans(b, b1, b2, [Entry(job, operation, m, t)], Tag(job, operation, rest));
      TagCons(job, operation, (m, t), rest);
    }
  }

  lemma OperationsBelowCons(ps: Pairs, ops: seq<Pairs>, n: nat)
    ensures OperationsBelow([ps] + ops, n) <==> PairsBelow(ps, n) && OperationsBelow(ops, n)
  {
    assert ([ps] + ops)[0] == ps;
    assert forall o :: 0 <= o < |ops| ==> ([ps] + ops)[o + 1] == ops[o];
  }

  lemma JobsBelowCons(ops: seq<Pairs>, jobs: seq<seq<Pairs>>, n: nat)
    ensures JobsBelow([ops] + jobs, n) <==> OperationsBelow(ops, n) && JobsBelow(jobs, n)
  {
    assert ([ops] + jobs)[0] == ops;
    assert forall j :: 0 <= j < |jobs| ==> ([ops] + jobs)[j + 1] == jobs[j];
  }

  /** One operation read: `OperationsAt` takes its pairs and then the rest. */
  lemma OperationsAtCons(toks: seq<Token>, pos: nat, n: nat)
    requires n > 0 && ReadCount(toks, pos).Ok?
    ensures var c := ReadCount(toks, pos).value;
            var ps := PairsAt(toks, pos + 1, c);
            var rest := OperationsAt(toks, pos + 1 + 2 * c, n - 1);
      && (OperationsAt(toks, pos, n).Ok? <==> ps.Ok? && rest.Ok?)
      && (OperationsAt(toks, pos, n).Ok? ==> OperationsAt(toks, pos, n).value == [ps.value] + rest.value)
  {
  }

  /** One job read: `JobsAt` takes its operations and then the rest. */
  lemma JobsAtCons(toks: seq<Token>, pos: nat, n: nat)
    requires n > 0 && ReadCount(toks, pos).Ok?
    ensures var c := ReadCount(toks, pos).value;
            var ops := OperationsAt(toks, pos + 1, c);
      && (JobsAt(toks, pos, n).Ok? <==>
            ops.Ok? && JobsAt(toks, pos + 1 + |RenderOperations(ops.value)|, n - 1).Ok?)
      && (JobsAt(toks, pos, n).Ok? ==>
            JobsAt(toks, pos, n).value
              == [ops.value] + JobsAt(toks, pos + 1 + |RenderOperations(ops.value)|, n - 1).value)
  {
  }

  lemma OperationEntriesCons(job: nat, from: nat, ps: Pairs, ops: seq<Pairs>)
    ensures OperationEntries(job, from, [ps] + ops) == Tag(job, from, ps) + OperationEntries(job, from + 1, ops)
  {
    assert ([ps] + ops)[0] == ps && ([ps] + ops)[1..] == ops;
  }

  lemma JobEntriesCons(from: nat, ops: seq<Pairs>, jobs: seq<seq<Pairs>>)
    ensures JobEntries(from, [ops] + jobs) == OperationEntries(from, 0, ops) + JobEntries(from + 1, jobs)
    ensures RenderJobs([ops] + jobs) == [Integer(|ops|)] + RenderOperations(ops) + RenderJobs(jobs)
    ensures Counts([ops] + jobs) == [|ops|] + Counts(jobs)
  {
    assert ([ops] + jobs)[0] == ops && ([ops] + jobs)[1..] == jobs;
  }

  lemma RenderOperationsCons(ps: Pairs, ops: seq<Pairs>)
    ensures RenderOperations([ps] + ops) == [Integer(|ps|)] + RenderPairs(ps) + RenderOperations(ops)
  {
    assert ([ps] + ops)[0] == ps && ([ps] + ops)[1..] == ops;
  }

  /** One operation read: the loop reads its pairs and goes on with the next. */
  lemma ReadOperationsCons(toks: seq<Token>, pos: nat, job: nat, operation: nat, b: Builder)
    requires job < |b.machinesOfOperation| && operation < |b.machinesOfOperation[job]|
    requires ReadCount(toks, pos).Ok?
    ensures var c := ReadCount(toks, pos).value;
            var re := ReadEntries(toks, pos + 1, job, operation, c, b);
            var r := ReadOperations(toks, pos, job, operation, b);
      && (re.Err? ==> r.Err?)
      && (re.Ok? ==> r == ReadOperations(toks, re.value.next, job, operation + 1, re.value.builder))
  {
  }

  lemma RenderOperationsLength(ps: Pairs, rest: seq<Pairs>)
    ensures |RenderOperations([ps] + rest)| == 1 + 2 * |ps| + |RenderOperations(rest)|
  {
    RenderOperationsCons(ps, rest);
  }

  /** Entries of one operation followed by those of the next ones are the
      entries of all of them. */
  lemma OperationsStepExtends(b: Builder, b1: Builder, b2: Builder, job: nat, operation: nat,
                              ps: Pairs, rest: seq<Pairs>, ops: seq<Pairs>)
    requires ops == [ps] + rest
    requires Extends(b, b1, Tag(job, operation, ps))
    requires Extends(b1, b2, OperationEntries(job, operation + 1, rest))
    ensures Extends(b, b2, OperationEntries(job, operation, ops))
  {
    OperationEntriesCons(job, operation, ps, rest);
    ExtendsTrans(b, b1, b2, Tag(job, operation, ps), OperationEntries(job, operation + 1, rest));
  }

  /** One operation read from pairs that are there and name machines below
      `num_machines`, as the next position `q` and builder `b1` the loop goes
      on with. */
  lemma ReadOperationNext(toks: seq<Token>, pos: nat, job: nat, operation: nat, b: Builder, ps: Pairs)
      returns (q: nat, b1: Builder)
    requires job < |b.machinesOfOperation| && operation < |b.machinesOfOperation[job]|
    requires ReadCount(toks, pos) == Ok(|ps|)
    requires PairsAt(toks, pos + 1, |ps|) == Ok(ps)
    requires PairsBelow(ps, |b.operationsOfMachine|)
    ensures q == pos + 1 + 2 * |ps|
    ensures |b1.machinesOfOperation| == |b.machinesOfOperation|
    ensures |b1.machinesOfOperation[job]| == |b.machinesOfOperation[job]|
    ensures |b1.operationsOfMachine| == |b.operationsOfMachine|
    ensures ReadOperations(toks, q, job, operation + 1, b1) == ReadOperations(toks, pos, job, operation, b)
  {
    ReadOperationsCons(toks, pos, job, operation, b);
    ReadEntriesAccepts(toks, pos + 1, job, operation, |ps|, b);
    var p := ReadEntries(toks, pos + 1, job, operation, |ps|, b).value;
    q, b1 := p.next, p.builder;
  }

  /** A non-empty list of operations read back by `OperationsAt` starts with
      the operation whose count and pairs come first. */
  lemma OperationsAtHead(toks: seq<Token>, pos: nat, n: nat, ops: seq<Pairs>)
    requires n > 0 && OperationsAt(toks, pos, n) == Ok(ops)
    ensures |ops| == n
    ensures ReadCount(toks, pos) == Ok(|ops[0]|)
    ensures PairsAt(toks, pos + 1, |ops[0]|) == Ok(ops[0])
  {
    var c := ReadCount(toks, pos).value;
    var ps := PairsAt(toks, pos + 1, c).value;
    var rest := OperationsAt(toks, pos + 1 + 2 * c, n - 1).value;
    assert ops == [ps] + rest;
    assert ops[0] == ps;
  }

  /** ... and goes on with the later operations, read from right after it. */
  lemma OperationsAtTail(toks: seq<Token>, pos: nat, n: nat, m: nat, q: nat, ops: seq<Pairs>)
    requires n == m + 1 && OperationsAt(toks, pos, n) == Ok(ops)
    requires |ops| == n && q == pos + 1 + 2 * |ops[0]|
    ensures OperationsAt(toks, q, m) == Ok(ops[1..])
  {
    var c := ReadCount(toks, pos).value;
    var ps := PairsAt(toks, pos + 1, c).value;
    var rest := OperationsAt(toks, pos + 1 + 2 * c, m).value;
    assert ops == [ps] + rest;
    assert ops[0] == ps && ops[1..] == rest;
  }

  lemma OperationsBelowTail(ops: seq<Pairs>, n: nat)
    requires |ops| > 0 && OperationsBelow(ops, n)
    ensures PairsBelow(ops[0], n) && OperationsBelow(ops[1..], n)
  {
    assert forall o :: 0 <= o < |ops| - 1 ==> ops[1..][o] == ops[o + 1];
  }

  /** A successful operation loop has read operations that are there, whose
      machines are all below `num_machines`, and has stopped right after
      them. */
  lemma {:induction false} ReadOperationsSound(toks: seq<Token>, pos: nat, job: nat, operation: nat,
                                               b: Builder)
    requires job < |b.machinesOfOperation| && operation <= |b.machinesOfOperation[job]|
    requires ReadOperations(toks, pos, job, operation, b).Ok?
    ensures var ops := OperationsAt(toks, pos, |b.machinesOfOperation[job]| - operation);
      && ops.Ok? && OperationsBelow(ops.value, |b.operationsOfMachine|)
      && ReadOperations(toks, pos, job, operation, b).value.next == pos + |RenderOperations(ops.value)|
    decreases |b.machinesOfOperation[job]| - operation
  {
    if operation < |b.machinesOfOperation[job]| {
      var ps, q, b1 := ReadOperationHead(toks, pos, job, operation, b);
      ReadOperationsSound(toks, q, job, operation + 1, b1);
      ReadOperationsSoundStep(toks, pos, job, operation, b, ps, q, b1);
    }
  }

  /** The step of `ReadOperationsSound`: the first operation read, then the
      later ones. */
  lemma ReadOperationsSoundStep(toks: seq<Token>, pos: nat, job: nat, operation: nat, b: Builder,
                                ps: Pairs, q: nat, b1: Builder)
    requires job < |b.machinesOfOperation| && operation < |b.machinesOfOperation[job]|
    requires ReadCount(toks, pos) == Ok(|ps|)
    requires PairsAt(toks, pos + 1, |ps|) == Ok(ps)
    requires q == pos + 1 + 2 * |ps|
    requires |b1.machinesOfOperation| == |b.machinesOfOperation|
    requires |b1.machinesOfOperation[job]| == |b.machinesOfOperation[job]|
    requires |b1.operationsOfMachine| == |b.operationsOfMachine|
    requires PairsBelow(ps, |b.operationsOfMachine|)
    requires ReadOperations(toks, q, job, operation + 1, b1) == ReadOperations(toks, pos, job, operation, b)
    requires ReadOperations(toks, pos, job, operation, b).Ok?
    requires var ops := OperationsAt(toks, q, |b1.machinesOfOperation[job]| - (operation + 1));
      && ops.Ok? && OperationsBelow(ops.value, |b1.operationsOfMachine|)
      && ReadOperations(toks, q, job, operation + 1, b1).value.next == q + |RenderOperations(ops.value)|
    ensures var ops := OperationsAt(toks, pos, |b.machinesOfOperation[job]| - operation);
      && ops.Ok? && OperationsBelow(ops.value, |b.operationsOfMachine|)
      && ReadOperations(toks, pos, job, operation, b).value.next == pos + |RenderOperations(ops.value)|
  {
    var m := |b1.machinesOfOperation[job]| - (operation + 1);
    var rest := OperationsAt(toks, q, m).value;
    OperationsAtFrom(toks, pos, ps, |b.machinesOfOperation[job]| - operation, m, q, rest);
    OperationsBelowCons(ps, rest, |b.operationsOfMachine|);
    RenderOperationsLength(ps, rest);
  }

  /** The operation loop succeeds on operations that are there and whose
      machines are all below `num_machines`. */
  lemma {:induction false} ReadOperationsComplete(toks: seq<Token>, pos: nat, job: nat, operation: nat,
                                                  b: Builder, ops: seq<Pairs>)
    requires job < |b.machinesOfOperation| && operation <= |b.machinesOfOperation[job]|
    requires OperationsAt(toks, pos, |b.machinesOfOperation[job]| - operation) == Ok(ops)
    requires OperationsBelow(ops, |b.operationsOfMachine|)
    ensures ReadOperations(toks, pos, job, operation, b).Ok?
    decreases |b.machinesOfOperation[job]| - operation
  {
    var n := |b.machinesOfOperation[job]|;
    if operation < n {
      OperationsAtHead(toks, pos, n - operation, ops);
      OperationsBelowTail(ops, |b.operationsOfMachine|);
      var q, b1 := ReadOperationNext(toks, pos, job, operation, b, ops[0]);
      OperationsAtTail(toks, pos, n - operation, |b1.machinesOfOperation[job]| - (operation + 1), q, ops);
      ReadOperationsComplete(toks, q, job, operation + 1, b1, ops[1..]);
    }
  }

  /** The operation loop succeeds exactly when the remaining operations are
      there and every pair names a machine below `num_machines`; it then
      stops right after them. */
  lemma ReadOperationsAccepts(toks: seq<Token>, pos: nat, job: nat, operation: nat, b: Builder)
    requires job < |b.machinesOfOperation| && operation <= |b.machinesOfOperation[job]|
    ensures var r := ReadOperations(toks, pos, job, operation, b);
            var ops := OperationsAt(toks, pos, |b.machinesOfOperation[job]| - operation);
      && (r.Ok? <==> ops.Ok? && OperationsBelow(ops.value, |b.operationsOfMachine|))
      && (r.Ok? ==> r.value.next == pos + |RenderOperations(ops.value)|)
  {
    if ReadOperations(toks, pos, job, operation, b).Ok? {
      ReadOperationsSound(toks, pos, job, operation, b);
    }
    var ops := OperationsAt(toks, pos, |b.machinesOfOperation[job]| - operation);
    if ops.Ok? && OperationsBelow(ops.value, |b.operationsOfMachine|) {
      ReadOperationsComplete(toks, pos, job, operation, b, ops.value);
    }
  }

  /** One successful operation read, as the pairs `ps` it read and the next
      position `q` and builder `b1` the loop goes on with. */
  lemma ReadOperationFirst(toks: seq<Token>, pos: nat, job: nat, operation: nat, b: Builder)
      returns (ps: Pairs, q: nat, b1: Builder)
    requires job < |b.machinesOfOperation| && operation < |b.machinesOfOperation[job]|
    requires ReadOperations(toks, pos, job, operation, b).Ok?
    ensures ReadCount(toks, pos) == Ok(|ps|)
    ensures PairsAt(toks, pos + 1, |ps|) == Ok(ps)
    ensures q == pos + 1 + 2 * |ps|
    ensures |b1.machinesOfOperation| == |b.machinesOfOperation|
    ensures |b1.machinesOfOperation[job]| == |b.machinesOfOperation[job]|
    ensures |b1.operationsOfMachine| == |b.operationsOfMachine|
    ensures PairsBelow(ps, |b.operationsOfMachine|)
    ensures Extends(b, b1, Tag(job, operation, ps))
    ensures ReadOperations(toks, q, job, operation + 1, b1) == ReadOperations(toks, pos, job, operation, b)
  {
    var c := ReadCount(toks, pos).value;
    ReadOperationsCons(toks, pos, job, operation, b);
    ReadEntriesAccepts(toks, pos + 1, job, operation, c, b);
    ReadEntriesExtends(toks, pos + 1, job, operation, c, b);
    ps := PairsAt(toks, pos + 1, c).value;
    var p := ReadEntries(toks, pos + 1, job, operation, c, b).value;
    q, b1 := p.next, p.builder;
  }

  /** `ReadOperationFirst` without the entries it stores. */
  lemma ReadOperationHead(toks: seq<Token>, pos: nat, job: nat, operation: nat, b: Builder)
      returns (ps: Pairs, q: nat, b1: Builder)
    requires job < |b.machinesOfOperation| && operation < |b.machinesOfOperation[job]|
    requires ReadOperations(toks, pos, job, operation, b).Ok?
    ensures ReadCount(toks, pos) == Ok(|ps|)
    ensures PairsAt(toks, pos + 1, |ps|) == Ok(ps)
    ensures q == pos + 1 + 2 * |ps|
    ensures |b1.machinesOfOperation| == |b.machinesOfOperation|
    ensures |b1.machinesOfOperation[job]| == |b.machinesOfOperation[job]|
    ensures |b1.operationsOfMachine| == |b.operationsOfMachine|
    ensures PairsBelow(ps, |b.operationsOfMachine|)
    ensures ReadOperations(toks, q, job, operation + 1, b1) == ReadOperations(toks, pos, job, operation, b)
  {
    var c := ReadCount(toks, pos).value;
    ReadOperationsCons(toks, pos, job, operation, b);
    ReadEntriesAccepts(toks, pos + 1, job, operation, c, b);
    ps := PairsAt(toks, pos + 1, c).value;
    var p := ReadEntries(toks, pos + 1, job, operation, c, b).value;
    q, b1 := p.next, p.builder;
  }

  /** `OperationsAt` over `k` operations, from the first one and the `m`
      later ones. */
  lemma OperationsAtFrom(toks: seq<Token>, pos: nat, ps: Pairs, k: nat, m: nat, q: nat, rest: seq<Pairs>)
    requires k == m + 1 && q == pos + 1 + 2 * |ps|
    requires ReadCount(toks, pos) == Ok(|ps|)
    requires PairsAt(toks, pos + 1, |ps|) == Ok(ps)
    requires OperationsAt(toks, q, m) == Ok(rest)
    ensures OperationsAt(toks, pos, k) == Ok([ps] + rest)
  {
    OperationsAtStep(toks, pos, |ps|, ps, m, rest);
  }

  /** A successful operation loop extends the builder by the entries of the
      operations read, in file order. */
  lemma {:induction false} ReadOperationsExtends(toks: seq<Token>, pos: nat, job: nat, operation: nat,
                                                 b: Builder)
    requires job < |b.machinesOfOperation| && operation <= |b.machinesOfOperation[job]|
    requires ReadOperations(toks, pos, job, operation, b).Ok?
    ensures OperationsAt(toks, pos, |b.machinesOfOperation[job]| - operation).Ok?
    ensures Extends(b, ReadOperations(toks, pos, job, operation, b).value.builder,
                    OperationEntries(job, operation,
                                     OperationsAt(toks, pos, |b.machinesOfOperation[job]| - operation).value))
    decreases |b.machinesOfOperation[job]| - operation
  {
    if operation == |b.machinesOfOperation[job]| {
      ExtendsNothing(b);
    } else {
      var ps, q, b1 := ReadOperationFirst(toks, pos, job, operation, b);
      ReadOperationsExtends(toks, q, job, operation + 1, b1);
      ReadOperationsExtendsStep(toks, pos, job, operation, b, ps, q, b1);
    }
  }

  /** The step of `ReadOperationsExtends`: the entries of the first operation
      read, then those of the later ones. */
  lemma ReadOperationsExtendsStep(toks: seq<Token>, pos: nat, job: nat, operation: nat, b: Builder,
                                  ps: Pairs, q: nat, b1: Builder)
    requires job < |b.machinesOfOperation| && operation < |b.machinesOfOperation[job]|
    requires ReadCount(toks, pos) == Ok(|ps|)
    requires PairsAt(toks, pos + 1, |ps|) == Ok(ps)
    requires q == pos + 1 + 2 * |ps|
    requires |b1.machinesOfOperation| == |b.machinesOfOperation|
    requires |b1.machinesOfOperation[job]| == |b.machinesOfOperation[job]|
    requires Extends(b, b1, Tag(job, operation, ps))
    requires ReadOperations(toks, q, job, operation + 1, b1) == ReadOperations(toks, pos, job, operation, b)
    requires ReadOperations(toks, pos, job, operation, b).Ok?
    requires OperationsAt(toks, q, |b1.machinesOfOperation[job]| - (operation + 1)).Ok?
    requires Extends(b1, ReadOperations(toks, q, job, operation + 1, b1).value.builder,
                     OperationEntries(job, operation + 1,
                                      OperationsAt(toks, q, |b1.machinesOfOperation[job]| - (operation + 1)).value))
    ensures OperationsAt(toks, pos, |b.machinesOfOperation[job]| - operation).Ok?
    ensures Extends(b, ReadOperations(toks, pos, job, operation, b).value.builder,
                    OperationEntries(job, operation,
                                     OperationsAt(toks, pos, |b.machinesOfOperation[job]| - operation).value))
  {
    var m := |b1.machinesOfOperation[job]| - (operation + 1);
    var rest := OperationsAt(toks, q, m).value;
    OperationsAtFrom(toks, pos, ps, |b.machinesOfOperation[job]| - operation, m, q, rest);
    OperationsStepExtends(b, b1, ReadOperations(toks, pos, job, operation, b).value.builder,
                          job, operation, ps, rest,
                          OperationsAt(toks, pos, |b.machinesOfOperation[job]| - operation).value);
  }

  /** One job read: the loop adds the job, reads its operations and goes on. */
  lemma ReadJobsCons(toks: seq<Token>, pos: nat, numJobs: nat, b: Builder)
    requires |b.machinesOfOperation| < numJobs
    requires ReadCount(toks, pos).Ok?
    ensures var b' := AddJob(b, ReadCount(toks, pos).value);
      && |b'.machinesOfOperation| == |b.machinesOfOperation| + 1
      && |b'.machinesOfOperation[|b.machinesOfOperation|]| == ReadCount(toks, pos).value
      && b'.operationsOfMachine == b.operationsOfMachine
    ensures var b' := AddJob(b, ReadCount(toks, pos).value);
            var ro := ReadOperations(toks, pos + 1, |b.machinesOfOperation|, 0, b');
            var r := ReadJobs(toks, pos, numJobs, b);
      && (ro.Err? ==> r.Err?)
      && (ro.Ok? ==> r == ReadJobs(toks, ro.value.next, numJobs, ro.value.builder))
  {
  }

  /** One successful job read, as the operations `ops` it read and the next
      position `q` and builder `b1` the loop goes on with. */
  lemma ReadJobFirst(toks: seq<Token>, pos: nat, numJobs: nat, b: Builder)
      returns (ops: seq<Pairs>, q: nat, b1: Builder)
    requires |b.machinesOfOperation| < numJobs
    requires ReadJobs(toks, pos, numJobs, b).Ok?
    ensures ReadCount(toks, pos) == Ok(|ops|)
    ensures OperationsAt(toks, pos + 1, |ops|) == Ok(ops)
    ensures OperationsBelow(ops, |b.operationsOfMachine|)
    ensures q == pos + 1 + |RenderOperations(ops)|
    ensures |b1.machinesOfOperation| == |b.machinesOfOperation| + 1 <= numJobs
    ensures |b1.operationsOfMachine| == |b.operationsOfMachine|
    ensures ReadJobs(toks, q, numJobs, b1) == ReadJobs(toks, pos, numJobs, b)
  {
    var J := |b.machinesOfOperation|;
    var n := ReadCount(toks, pos).value;
    var b' := AddJob(b, n);
    ReadJobsCons(toks, pos, numJobs, b);
    ReadOperationsAccepts(toks, pos + 1, J, 0, b');
    ops := OperationsAt(toks, pos + 1, n).value;
    var p := ReadOperations(toks, pos + 1, J, 0, b').value;
    q, b1 := p.next, p.builder;
  }

  /** `JobsAt` over `k` jobs, from the first job and the `m` later ones. */
  lemma JobsAtFrom(toks: seq<Token>, pos: nat, ops: seq<Pairs>, k: nat, m: nat, rest: seq<seq<Pairs>>)
    requires k == m + 1
    requires ReadCount(toks, pos) == Ok(|ops|)
    requires OperationsAt(toks, pos + 1, |ops|) == Ok(ops)
    requires JobsAt(toks, pos + 1 + |RenderOperations(ops)|, m) == Ok(rest)
    ensures JobsAt(toks, pos, k) == Ok([ops] + rest)
  {
    JobsAtStep(toks, pos, |ops|, ops, m, rest);
  }

  /** A successful job loop has read jobs that are there, whose machines are
      all below `num_machines`. */
  lemma {:induction false} ReadJobsSound(toks: seq<Token>, pos: nat, numJobs: nat, b: Builder)
    requires |b.machinesOfOperation| <= numJobs
    requires ReadJobs(toks, pos, numJobs, b).Ok?
    ensures var jobs := JobsAt(toks, pos, numJobs - |b.machinesOfOperation|);
      jobs.Ok? && JobsBelow(jobs.value, |b.operationsOfMachine|)
    decreases numJobs - |b.machinesOfOperation|
  {
    if |b.machinesOfOperation| < numJobs {
      var ops, q, b1 := ReadJobFirst(toks, pos, numJobs, b);
      ReadJobsSound(toks, q, numJobs, b1);
      ReadJobsSoundStep(toks, pos, numJobs, b, ops, q, b1);
    }
  }

  /** The step of `ReadJobsSound`: the first job read, then the later ones. */
  lemma ReadJobsSoundStep(toks: seq<Token>, pos: nat, numJobs: nat, b: Builder,
                          ops: seq<Pairs>, q: nat, b1: Builder)
    requires ReadCount(toks, pos) == Ok(|ops|)
    requires OperationsAt(toks, pos + 1, |ops|) == Ok(ops)
    requires OperationsBelow(ops, |b.operationsOfMachine|)
    requires q == pos + 1 + |RenderOperations(ops)|
    requires |b1.machinesOfOperation| == |b.machinesOfOperation| + 1 <= numJobs
    requires |b1.operationsOfMachine| == |b.operationsOfMachine|
    requires var jobs := JobsAt(toks, q, numJobs - |b1.machinesOfOperation|);
      jobs.Ok? && JobsBelow(jobs.value, |b1.operationsOfMachine|)
    ensures var jobs := JobsAt(toks, pos, numJobs - |b.machinesOfOperation|);
      jobs.Ok? && JobsBelow(jobs.value, |b.operationsOfMachine|)
  {
    var rest := JobsAt(toks, q, numJobs - |b1.machinesOfOperation|).value;
    JobsAtFrom(toks, pos, ops, numJobs - |b.machinesOfOperation|, numJobs - |b1.machinesOfOperation|, rest);
    JobsBelowCons(ops, rest, |b.operationsOfMachine|);
  }

  /** A non-empty listing read back by `JobsAt` starts with the job whose
      count and operations come first. */
  lemma JobsAtHead(toks: seq<Token>, pos: nat, n: nat, jobs: seq<seq<Pairs>>)
    requires n > 0 && JobsAt(toks, pos, n) == Ok(jobs)
    ensures |jobs| == n
    ensures ReadCount(toks, pos) == Ok(|jobs[0]|)
    ensures OperationsAt(toks, pos + 1, |jobs[0]|) == Ok(jobs[0])
  {
    var c := ReadCount(toks, pos).value;
    var ops := OperationsAt(toks, pos + 1, c).value;
    var rest := JobsAt(toks, pos + 1 + |RenderOperations(ops)|, n - 1).value;
    assert jobs == [ops] + rest;
    assert jobs[0] == ops;
  }

  /** ... and goes on with the later jobs, read from right after it. */
  lemma JobsAtTail(toks: seq<Token>, pos: nat, n: nat, m: nat, q: nat, jobs: seq<seq<Pairs>>)
    requires n == m + 1 && JobsAt(toks, pos, n) == Ok(jobs)
    requires |jobs| == n && q == pos + 1 + |RenderOperations(jobs[0])|
    ensures JobsAt(toks, q, m) == Ok(jobs[1..])
  {
    var c := ReadCount(toks, pos).value;
    var ops := OperationsAt(toks, pos + 1, c).value;
    var rest := JobsAt(toks, pos + 1 + |RenderOperations(ops)|, m).value;
    assert jobs == [ops] + rest;
    assert jobs[0] == ops && jobs[1..] == rest;
  }

  lemma JobsBelowTail(jobs: seq<seq<Pairs>>, n: nat)
    requires |jobs| > 0 && JobsBelow(jobs, n)
    ensures OperationsBelow(jobs[0], n) && JobsBelow(jobs[1..], n)
  {
    assert forall j :: 0 <= j < |jobs| - 1 ==> jobs[1..][j] == jobs[j + 1];
  }

  /** The job loop succeeds on jobs that are there and whose machines are all
      below `num_machines`. */
  lemma {:induction false} ReadJobsComplete(toks: seq<Token>, pos: nat, numJobs: nat, b: Builder,
                                            jobs: seq<seq<Pairs>>)
    requires |b.machinesOfOperation| <= numJobs
    requires JobsAt(toks, pos, numJobs - |b.machinesOfOperation|) == Ok(jobs)
    requires JobsBelow(jobs, |b.operationsOfMachine|)
    ensures ReadJobs(toks, pos, numJobs, b).Ok?
    decreases numJobs - |b.machinesOfOperation|
  {
    if |b.machinesOfOperation| < numJobs {
      var q, b1 := ReadJobAccepted(toks, pos, numJobs, b, jobs);
      ReadJobsComplete(toks, q, numJobs, b1, jobs[1..]);
    }
  }

  /** The first of the jobs `JobsAt` reads is read, and the job loop goes on
      with the later ones from the next position `q` and builder `b1`. */
  lemma ReadJobAccepted(toks: seq<Token>, pos: nat, numJobs: nat, b: Builder, jobs: seq<seq<Pairs>>)
      returns (q: nat, b1: Builder)
    requires |b.machinesOfOperation| < numJobs
    requires JobsAt(toks, pos, numJobs - |b.machinesOfOperation|) == Ok(jobs)
    requires JobsBelow(jobs, |b.operationsOfMachine|)
    ensures |jobs| > 0
    ensures |b1.machinesOfOperation| == |b.machinesOfOperation| + 1 <= numJobs
    ensures |b1.operationsOfMachine| == |b.operationsOfMachine|
    ensures JobsAt(toks, q, numJobs - |b1.machinesOfOperation|) == Ok(jobs[1..])
    ensures JobsBelow(jobs[1..], |b1.operationsOfMachine|)
    ensures ReadJobs(toks, q, numJobs, b1).Ok? ==> ReadJobs(toks, pos, numJobs, b).Ok?
  {
    var J := |b.machinesOfOperation|;
    JobsAtHead(toks, pos, numJobs - J, jobs);
    JobsBelowTail(jobs, |b.operationsOfMachine|);
    var b' := AddJob(b, |jobs[0]|);
    ReadJobsCons(toks, pos, numJobs, b);
    ReadOperationsAccepts(toks, pos + 1, J, 0, b');
    var p := ReadOperations(toks, pos + 1, J, 0, b').value;
    q, b1 := p.next, p.builder;
    JobsAtTail(toks, pos, numJobs - J, numJobs - |b1.machinesOfOperation|, q, jobs);
  }

  /** The job loop succeeds exactly when the remaining jobs are there and
      every pair names a machine below `num_machines`. */
  lemma ReadJobsAccepts(toks: seq<Token>, pos: nat, numJobs: nat, b: Builder)
    requires |b.machinesOfOperation| <= numJobs
    ensures ReadJobs(toks, pos, numJobs, b).Ok? <==>
      var jobs := JobsAt(toks, pos, numJobs - |b.machinesOfOperation|);
      jobs.Ok? && JobsBelow(jobs.value, |b.operationsOfMachine|)
  {
    if ReadJobs(toks, pos, numJobs, b).Ok? {
      ReadJobsSound(toks, pos, numJobs, b);
    }
    var jobs := JobsAt(toks, pos, numJobs - |b.machinesOfOperation|);
    if jobs.Ok? && JobsBelow(jobs.value, |b.operationsOfMachine|) {
      ReadJobsComplete(toks, pos, numJobs, b, jobs.value);
    }
  }

  /** Entries of the first job followed by those of the later jobs are the
      entries of all of them, once the builder has a slot for every job. */
  lemma JobsStepExtends(b: Builder, b1: Builder, b2: Builder, jobs: seq<seq<Pairs>>)
    requires |jobs| > 0
    requires Extends(AddJob(b, |jobs[0]|), b1, OperationEntries(|b.machinesOfOperation|, 0, jobs[0]))
    requires Extends(AddJobs(b1, Counts(jobs[1..])), b2, JobEntries(|b.machinesOfOperation| + 1, jobs[1..]))
    ensures Extends(AddJobs(b, Counts(jobs)), b2, JobEntries(|b.machinesOfOperation|, jobs))
  {
    var J := |b.machinesOfOperation|;
    var ops, rest := jobs[0], jobs[1..];
    assert jobs == [ops] + rest;
    var b' := AddJob(b, |ops|);
    var es := OperationEntries(J, 0, ops);
    var counts := Counts(rest);
    JobEntriesCons(J, ops, rest);
    OperationEntriesOfJob(J, 0, ops);
    ExtendsAddJobs(b', b1, es, counts);
    ExtendsTrans(AddJobs(b', counts), AddJobs(b1, counts), b2, es, JobEntries(J + 1, rest));
    assert AddJobs(b, [|ops|] + counts) == AddJobs(b', counts) by {
      assert ([|ops|] + counts)[0] == |ops| && ([|ops|] + counts)[1..] == counts;
    }
  }

  /** A successful operation loop over a whole job, as the position `q` and
      builder `b1` it ends with. */
  lemma ReadOperationsResult(toks: seq<Token>, pos: nat, job: nat, b: Builder, ops: seq<Pairs>)
      returns (q: nat, b1: Builder)
    requires job < |b.machinesOfOperation| && |b.machinesOfOperation[job]| == |ops|
    requires OperationsAt(toks, pos, |ops|) == Ok(ops)
    requires ReadOperations(toks, pos, job, 0, b).Ok?
    ensures ReadOperations(toks, pos, job, 0, b) == Ok(Parsed(b1, q))
    ensures q == pos + |RenderOperations(ops)|
    ensures |b1.machinesOfOperation| == |b.machinesOfOperation|
    ensures Extends(b, b1, OperationEntries(job, 0, ops))
  {
    ReadOperationsAccepts(toks, pos, job, 0, b);
    ReadOperationsExtends(toks, pos, job, 0, b);
    assert OperationsAt(toks, pos, |b.machinesOfOperation[job]| - 0) == Ok(ops);
    var p := ReadOperations(toks, pos, job, 0, b).value;
    q, b1 := p.next, p.builder;
  }

  /** One successful job read, as the next position `q` and builder `b1` the
      loop goes on with: the builder has one more job, extended by the
      entries of the first job `JobsAt` reads, and the later jobs are read
      from `q`. */
  lemma ReadJobStep(toks: seq<Token>, pos: nat, numJobs: nat, b: Builder, jobs: seq<seq<Pairs>>)
      returns (q: nat, b1: Builder)
    requires |b.machinesOfOperation| < numJobs
    requires ReadJobs(toks, pos, numJobs, b).Ok?
    requires JobsAt(toks, pos, numJobs - |b.machinesOfOperation|) == Ok(jobs)
    ensures |jobs| > 0
    ensures |b1.machinesOfOperation| == |b.machinesOfOperation| + 1 <= numJobs
    ensures ReadJobs(toks, q, numJobs, b1) == ReadJobs(toks, pos, numJobs, b)
    ensures JobsAt(toks, q, numJobs - |b1.machinesOfOperation|) == Ok(jobs[1..])
    ensures Extends(AddJob(b, |jobs[0]|), b1, OperationEntries(|b.machinesOfOperation|, 0, jobs[0]))
  {
    var J := |b.machinesOfOperation|;
    JobsAtHead(toks, pos, numJobs - J, jobs);
    q, b1 := ReadJobRead(toks, pos, numJobs, b, jobs[0]);
    JobsAtTail(toks, pos, numJobs - J, numJobs - |b1.machinesOfOperation|, q, jobs);
  }

  /** The job read when its count and operations are `ops`: the loop goes on
      right after them, with the builder given a slot for the job and then
      extended by its entries. */
  lemma ReadJobRead(toks: seq<Token>, pos: nat, numJobs: nat, b: Builder, ops: seq<Pairs>)
      returns (q: nat, b1: Builder)
    requires |b.machinesOfOperation| < numJobs
    requires ReadJobs(toks, pos, numJobs, b).Ok?
    requires ReadCount(toks, pos) == Ok(|ops|)
    requires OperationsAt(toks, pos + 1, |ops|) == Ok(ops)
    ensures q == pos + 1 + |RenderOperations(ops)|
    ensures |b1.machinesOfOperation| == |b.machinesOfOperation| + 1
    ensures ReadJobs(toks, q, numJobs, b1) == ReadJobs(toks, pos, numJobs, b)
    ensures Extends(AddJob(b, |ops|), b1, OperationEntries(|b.machinesOfOperation|, 0, ops))
  {
    ReadJobsCons(toks, pos, numJobs, b);
    q, b1 := ReadOperationsResult(toks, pos + 1, |b.machinesOfOperation|, AddJob(b, |ops|), ops);
  }

  /** A successful job loop gives the builder one job per count read and then
      extends it by the entries of all those jobs, in file order. */
  lemma {:induction false} ReadJobsExtends(toks: seq<Token>, pos: nat, numJobs: nat, b: Builder,
                                           jobs: seq<seq<Pairs>>)
    requires |b.machinesOfOperation| <= numJobs
    requires ReadJobs(toks, pos, numJobs, b).Ok?
    requires JobsAt(toks, pos, numJobs - |b.machinesOfOperation|) == Ok(jobs)
    ensures Extends(AddJobs(b, Counts(jobs)), ReadJobs(toks, pos, numJobs, b).value.builder,
                    JobEntries(|b.machinesOfOperation|, jobs))
    decreases numJobs - |b.machinesOfOperation|
  {
    if |b.machinesOfOperation| == numJobs {
      ExtendsNothing(b);
    } else {
      var q, b1 := ReadJobStep(toks, pos, numJobs, b, jobs);
      ReadJobsExtends(toks, q, numJobs, b1, jobs[1..]);
      JobsStepExtends(b, b1, ReadJobs(toks, pos, numJobs, b).value.builder, jobs);
    }
  }

  /** The builder holds what the listing `jobs` describes: its counts, each
      operation's machines in file order, each machine's (job, operation)
      pairs in file order, once per pair naming the machine, and the time map
      with every pair stored in file order. */
  ghost predicate Holds(b: Builder, numMachines: nat, jobs: seq<seq<Pairs>>)
  {
    && b.numOperations == Counts(jobs)
    && |b.machinesOfOperation| == |jobs|
    && (forall j :: 0 <= j < |jobs| ==> |b.machinesOfOperation[j]| == |jobs[j]|)
    && (forall j, o :: 0 <= j < |jobs| && 0 <= o < |jobs[j]| ==>
          b.machinesOfOperation[j][o] == Machines(jobs[j][o]))
    && |b.operationsOfMachine| == numMachines
    && (forall m :: 0 <= m < numMachines ==>
          b.operationsOfMachine[m] == OperationsOn(JobEntries(0, jobs), m))
    && b.processingTime == Store(map[], JobEntries(0, jobs))
  }

  /** The instance is the one an instance file listing `jobs` on
      `numMachines` machines describes. */
  ghost predicate Describes(inst: Instance, numMachines: nat, jobs: seq<seq<Pairs>>)
  {
    && inst.numJobs == |jobs|
    && inst.numMachines == numMachines
    && Holds(Builder(inst.numOperations, inst.totalNumOperations, inst.machinesOfOperation,
                     inst.operationsOfMachine, inst.processingTime), numMachines, jobs)
  }

  /** `n` empty lists. */
  lemma EmptyLists<T>(x: seq<seq<T>>, n: nat)
    requires x == seq(n, _ => [])
    ensures |x| == n && forall i :: 0 <= i < n ==> x[i] == []
  {
  }

  /** The empty builder with a slot per job of `jobs`: the counts of `jobs`,
      an empty eligible list per operation and nothing else. */
  lemma SlotsForJobs(numMachines: nat, jobs: seq<seq<Pairs>>)
    ensures var start := AddJobs(EmptyBuilder(numMachines), Counts(jobs));
      && start.numOperations == Counts(jobs)
      && |start.machinesOfOperation| == |jobs|
      && (forall j :: 0 <= j < |jobs| ==> |start.machinesOfOperation[j]| == |jobs[j]|)
      && (forall j, o :: 0 <= j < |jobs| && 0 <= o < |jobs[j]| ==> start.machinesOfOperation[j][o] == [])
      && |start.operationsOfMachine| == numMachines
      && (forall m :: 0 <= m < numMachines ==> start.operationsOfMachine[m] == [])
      && start.processingTime == map[]
  {
    var e := EmptyBuilder(numMachines);
    var ns := Counts(jobs);
    var start := AddJobs(e, ns);
    SlotsHeader(numMachines, ns);
    forall j | 0 <= j < |jobs|
      ensures |start.machinesOfOperation[j]| == |jobs[j]|
      ensures forall o :: 0 <= o < |jobs[j]| ==> start.machinesOfOperation[j][o] == []
    {
      AddJobsSlot(e, ns, j, j);
      assert ns[j] == |jobs[j]|;
    }
  }

  /** The empty builder with a slot per count: the counts, no machine lists
      filled and no times. */
  lemma SlotsHeader(numMachines: nat, ns: seq<nat>)
    ensures var start := AddJobs(EmptyBuilder(numMachines), ns);
      && start.numOperations == ns
      && |start.machinesOfOperation| == |ns|
      && |start.operationsOfMachine| == numMachines
      && (forall m :: 0 <= m < numMachines ==> start.operationsOfMachine[m] == [])
      && start.processingTime == map[]
  {
    var e := EmptyBuilder(numMachines);
    AddJobsShape(e, ns);
    assert [] + ns == ns;
    EmptyLists(AddJobs(e, ns).operationsOfMachine, numMachines);
  }

  /** A builder that extends the empty one, with a slot per job, by the
      entries of `jobs` holds what `jobs` describes. */
  lemma HoldsFromEmpty(b: Builder, numMachines: nat, jobs: seq<seq<Pairs>>)
    requires Extends(AddJobs(EmptyBuilder(numMachines), Counts(jobs)), b, JobEntries(0, jobs))
    ensures Holds(b, numMachines, jobs)
  {
    var start := AddJobs(EmptyBuilder(numMachines), Counts(jobs));
    var es := JobEntries(0, jobs);
    SlotsForJobs(numMachines, jobs);
    assert |b.machinesOfOperation| == |jobs|;
    forall j, o | 0 <= j < |jobs| && 0 <= o < |jobs[j]|
      ensures b.machinesOfOperation[j][o] == Machines(jobs[j][o])
    {
      assert b.machinesOfOperation[j][o] == start.machinesOfOperation[j][o] + MachinesFor(es, j, o);
      MachinesForJobs(0, jobs, j, o);
    }
    forall m | 0 <= m < numMachines
      ensures b.operationsOfMachine[m] == OperationsOn(es, m)
    {
      assert start.operationsOfMachine[m] == [];
      assert b.operationsOfMachine[m] == start.operationsOfMachine[m] + OperationsOn(es, m);
    }
    assert b.processingTime == Store(map[], es);
  }

  /** Reading the jobs from right after the header into the empty builder
      succeeds exactly when `JobsAt` reads them and their machines are below
      the machine count, and then gives what they describe. */
  lemma ReadJobsFromEmpty(toks: seq<Token>, numJobs: nat, numMachines: nat)
    ensures var r := ReadJobs(toks, 2, numJobs, EmptyBuilder(numMachines));
            var jobs := JobsAt(toks, 2, numJobs);
      && (r.Ok? <==> jobs.Ok? && JobsBelow(jobs.value, numMachines))
      && (r.Ok? ==> Holds(r.value.builder, numMachines, jobs.value))
  {
    var e := EmptyBuilder(numMachines);
    ReadJobsAccepts(toks, 2, numJobs, e);
    var r := ReadJobs(toks, 2, numJobs, e);
    if r.Ok? {
      var jobs := JobsAt(toks, 2, numJobs).value;
      ReadJobsExtends(toks, 2, numJobs, e, jobs);
      HoldsFromEmpty(r.value.builder, numMachines, jobs);
    }
  }

  /** A rendered listing whose machines are all below the machine count is
      read back as the instance it describes. */
  lemma ReadRendered(toks: seq<Token>, numMachines: nat, jobs: seq<seq<Pairs>>)
    requires Agree(toks, 0, Render(numMachines, jobs))
    requires JobsBelow(jobs, numMachines)
    ensures ReadInstance(toks).Ok?
    ensures Describes(ReadInstance(toks).value, numMachines, jobs)
  {
    RenderAgree(toks, numMachines, jobs);
    JobsAtRendered(toks, 2, jobs);
    ReadJobsFromEmpty(toks, |jobs|, numMachines);
  }

  /** A read instance passes `is_valid` as soon as every count is positive,
      every operation lists a machine and every time is at least epsilon:
      the index and range checks hold by construction. */
  lemma ReadAcceptedByIsValid(toks: seq<Token>)
    requires ReadInstance(toks).Ok?
    requires var inst := ReadInstance(toks).value;
      && inst.numJobs > 0 && inst.numMachines > 0
      && (forall j :: 0 <= j < inst.numJobs ==> inst.numOperations[j] > 0)
      && (forall j, o :: 0 <= j < inst.numJobs && 0 <= o < |inst.machinesOfOperation[j]| ==>
            |inst.machinesOfOperation[j][o]| > 0)
      && (forall k :: k in inst.processingTime ==> inst.processingTime[k] >= Eps)
    ensures WellFormed(ReadInstance(toks).value)
    ensures IsValid(ReadInstance(toks).value)
  {
    AgreeingIndicesValid(ReadInstance(toks).value);
  }

  /** An instance built the way the reader builds it, with its three indices
      agreeing and its bounds computed, is valid once the counts, the
      eligible lists and the times pass. */
  lemma AgreeingIndicesValid(inst: Instance)
    requires WellFormed(inst) && BoundsComputed(inst) && inst.numObjectives == NumObjectives
    requires EligibleTriples(inst) == ListedTriples(inst) == inst.processingTime.Keys
    requires && inst.numJobs > 0 && inst.numMachines > 0
      && (forall j :: 0 <= j < inst.numJobs ==> inst.numOperations[j] > 0)
      && (forall j, o :: 0 <= j < inst.numJobs && 0 <= o < |inst.machinesOfOperation[j]| ==>
            |inst.machinesOfOperation[j][o]| > 0)
      && (forall k :: k in inst.processingTime ==> inst.processingTime[k] >= Eps)
    ensures IsValid(inst)
  {
    PositiveCountsPositiveTotal(inst.numOperations);
    PrimalBoundNonNegative(inst.processingTime, inst.numJobs, inst.numMachines, inst.totalNumOperations);
    assert Coherent(inst);
    ValidIffCoherent(inst);
  }

  lemma {:induction false} PositiveCountsPositiveTotal(xs: seq<nat>)
    requires |xs| > 0
    requires forall j :: 0 <= j < |xs| ==> xs[j] > 0
    ensures NatSum(xs) > 0
  {
    assert Last(xs) > 0;
  }
}
