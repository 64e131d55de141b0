# Flexible job-shop scheduling core, modelled in Dafny

This project models the combinatorial core of a multi-objective flexible
job-shop scheduler (mofjssp):

- **Instances** (`instance.dfy`, `times.dfy`, `reader.dfy`):
  - the instance record;
  - its well-formedness;
  - the structural audit `Instance::is_valid`;
  - the worst-case bounds of `compute_primal_bound`;
  - the token reader `operator>>`.
- **Instance files** (`instance_text.dfy`): the input as a sequence of
  integer and decimal tokens, an independent reading `JobsAt` of the job
  listing, and its rendering back to tokens. The reader is proved to accept
  exactly the listings `JobsAt` reads whose machines are in range, and to
  build from them the indices and time map they describe.
- **Solutions** (`solution.dfy`):
  - the dominance test of objective vectors;
  - `compute_value`;
  - `Solution(instance)`;
  - `init` and the explicit-assignment constructor;
  - the feasibility audit `Solution::is_feasible`.
- **Random keys** (`keys.dfy`):
  - the first half of a key chooses each operation's machine by counting thresholds;
  - the second half, paired with job indices and sorted, gives the release order.
- **The scheduling walk** (`walk.dfy`, `walk_proofs.dfy`): the list-scheduling loop that the key constructor and the decoder share. Each step places a job's next operation on its machine, at the later of the job's previous end and the machine's last end. The invariants it keeps are proved step by step.
- **Key constructor** (`key_solution.dfy`): `Solution(instance, key)` as the walk from empty buffers. The main theorem says every key of the decoder's shape gives a schedule that `is_feasible` accepts.
- **Decoder** (`decoder.dfy`): `Decoder::decode` of the evolutionary solver.
  - It is a method with the source's loops over per-thread buffers that persist between calls.
  - Its four values depend only on the chromosome.
  - They agree with the key constructor's solution.
  - They are ordered: largest workload ≤ makespan ≤ total completion time, and makespan ≤ total workload.

Times are exact `real`s. `numeric_limits<double>::epsilon()` is the positive constant `Eps`.

Two notes on the source:

- **Machine choice.** Both the key constructor and the decoder choose a machine by walking the thresholds `k/m`, which `Keys.SelectIndex` models. They do not compute a direct scaled index such as `floor(key * m)`, which can differ at the bucket boundaries because of the epsilon margin.
- **`upper_bound`.** `is_feasible` compares the objective values against `instance.upper_bound`, which `Instance` does not declare. The stored bounds are `primal_bound`, so `Solutions.ValuesBounded` compares against `primalBound[0..2]`.

## Model

| member | source | states |
|---|---|---|
| Instances.ValidIffCoherent | src/instance/instance.cpp:112-228 | `is_valid` holds exactly when all of the following hold: (1) the job, machine and operation counts are positive; (2) every job has an operation and every operation an eligible machine; (3) the eligible triples, the machine-listed triples and the time-map keys are one and the same set; (4) every time is at least epsilon; (5) there are four objectives and four non-negative bounds |
| Instances.ValidSetsAgree | src/instance/instance.cpp:139-211 | on a valid instance the two inverse indices and the processing-time keys describe the same set of (job, operation, machine) triples |
| Instances.CoherentIsValid | src/instance/instance.cpp:112-228 | the converse direction: a coherent instance passes every check of `is_valid` |
| Instances.PrimalBound | src/instance/instance.cpp:7-28 | four bounds: (1) bound 0 is the largest time (0 if none exceeds it) repeated once per operation, so no time repeated that often exceeds it; (2) bound 1 is bound 0 repeated once per job; (3) bound 2 is the largest machine working time, 0 for no machines, so it covers every machine; (4) bound 3 is the sum of the working times |
| Instances.PrimalBoundNonNegative | src/instance/instance.cpp:14-27 | with non-negative times, bounds 0 and 1 are non-negative and 0 ≤ bound 2 ≤ bound 3 |
| Instances.MachineBounds | src/instance/instance.cpp:24-27 | the maximum of the per-machine working times dominates each of them and, for non-negative times, is at most their sum |
| Times.MaxTime | src/instance/instance.cpp:14-17 | the running maximum seeded with 0 is ≥ 0, is ≥ every processing time, and is 0 or one of them |
| Times.LoadAtMostWorkingTime | src/instance/instance.cpp:14-19 | a machine's workload over distinct operations is at most the sum of all times listed for that machine |
| InstanceReader.AddEntryConsistent | src/instance/instance.cpp:268-270 | the three writes of one `machine time` pair keep the eligible index, the machine index and the time map describing one relation, with every index in range |
| InstanceText.PairsAtAgree | src/instance/instance.cpp:262-266 | the pairs read from a position are what the input says there: written back as `machine time` tokens they agree with the input token by token |
| InstanceText.PairsAtRendered | src/instance/instance.cpp:262-266 | the converse: input that reads as the rendering of some pairs gives back exactly those pairs |
| InstanceText.OperationsAtAgree | src/instance/instance.cpp:257-266 | the operations read (a pair count, then that many pairs, per operation) agree with the input once written back |
| InstanceText.OperationsAtRendered | src/instance/instance.cpp:257-266 | input that reads as a rendering of some operations gives back exactly those operations |
| InstanceText.JobsAtAgree | src/instance/instance.cpp:248-266 | the jobs read (an operation count, then that many operations, per job) agree with the input once written back |
| InstanceText.JobsAtRendered | src/instance/instance.cpp:248-266 | input that reads as a rendering of some jobs gives back exactly those jobs |
| InstanceReader.ReadEntriesConsistent | src/instance/instance.cpp:262-271 | the pair loop keeps the builder consistent: eligible lists, machine lists and time keys describe one relation with every index in range |
| InstanceReader.ReadOperationsConsistent | src/instance/instance.cpp:257-272 | the operation loop of one job keeps the builder consistent |
| InstanceReader.ReadJobsConsistent | src/instance/instance.cpp:248-273 | the job loop keeps the builder consistent |
| InstanceReader.StoreLastWrite | src/instance/instance.cpp:270 | after storing entries in reading order, a key is in the time map exactly when it was before or some entry names it; its time is that of the last entry naming it; a key no entry names keeps its old time |
| InstanceReader.ReadEntriesAccepts | src/instance/instance.cpp:262-271 | the pair loop succeeds exactly when its pairs are there and every machine is below `num_machines`, and then stops right after them |
| InstanceReader.ReadEntriesExtends | src/instance/instance.cpp:266-270 | on success, each pair's machine is appended to the operation's eligible list, (job, operation) to the machine's list and the time stored under its triple, in file order, and nothing else changes |
| InstanceReader.ReadOperationsAccepts | src/instance/instance.cpp:257-272 | the operation loop of one job succeeds exactly when the job's operations are there and every machine in them is below `num_machines`, and then stops right after them |
| InstanceReader.ReadOperationsExtends | src/instance/instance.cpp:257-272 | on success the builder is extended by the entries of those operations, in file order |
| InstanceReader.ReadJobsAccepts | src/instance/instance.cpp:248-273 | the job loop succeeds exactly when the remaining jobs are there and every machine in them is below `num_machines` |
| InstanceReader.ReadJobsExtends | src/instance/instance.cpp:248-273 | on success the builder, with a slot per job, is extended by the entries of all jobs in file order |
| InstanceReader.ReadJobsFromEmpty | src/instance/instance.cpp:233-273 | from the cleared instance, the job loop succeeds exactly when the jobs are there with machines in range, and then the counts, eligible lists, machine lists and time map are exactly what those jobs describe, with the last time written for a repeated triple |
| InstanceReader.ReadInstance | src/instance/instance.cpp:230-278 | a parsed instance: (1) its job and machine counts are the first two tokens; (2) its job listing is what the following tokens read as, with machines in range, and it agrees with the whole input; (3) its counts, indices and time map are what that listing describes; (4) it is well formed, its bounds are those of `compute_primal_bound`, `total_num_operations` is the sum of the counts and there are four objectives; (5) eligible triples = machine-listed triples = time keys |
| InstanceReader.ReadRendered | src/instance/instance.cpp:230-278 | the converse: input that reads as the rendering of a job listing with machines in range is accepted, and the result is the instance that listing describes |
| InstanceReader.ReadAcceptedByIsValid | src/instance/instance.cpp:230-278 | a parsed instance with positive counts, non-empty eligible lists and times ≥ epsilon passes `is_valid` |
| Keys.CountFrom | src/solution/solution.cpp:125-129 | the number of consecutive thresholds passed from `k` on stays within `m`, all counted ones are passed, and the next one is not |
| Keys.SelectIndex | src/solution/solution.cpp:119-131 | for a key value ≤ 1 the iterator advances fewer than `m` times: thresholds 1/m … r/m are passed by more than epsilon and (r+1)/m is not |
| Keys.SelectIndexLoop | src/solution/solution.cpp:121-129 | the loop with `j` accumulated by `delta` advances the iterator exactly `SelectIndex` times |
| Keys.ChosenMachine | src/solution/solution.cpp:115-133 | the machine chosen for an operation is in its eligible list and below `num_machines` |
| Keys.JobSequenceAt | src/solution/solution.cpp:137-144 | position `offset(job) + operation` of the job-major order carries `job` |
| Keys.JobSequenceCount | src/solution/solution.cpp:137-144 | job `j` occupies exactly `num_operations[j]` positions of the permutation |
| Keys.InsertSorted | src/solution/solution.cpp:146 | inserting a pair into a sorted sequence keeps it sorted under the (key, job) order |
| Keys.SortPairs | src/solution/solution.cpp:146 | the sorted pairs are sorted lexicographically and are a permutation of the input |
| Keys.SortedUnique | src/solution/solution.cpp:146 | two sorted permutations of the same pairs are equal, so `std::sort`'s output is determined by its input |
| Keys.JobsPermutation | src/solution/solution.cpp:146-152 | permuting the pairs permutes their job components |
| Keys.ReleaseOrderCounts | src/solution/solution.cpp:137-152 | in the release order every job occurs exactly `num_operations[job]` times and every entry is a job index |
| Walk.Step | src/solution/solution.cpp:151-180 | one iteration advances only `job`'s counter, appends `(job, operation)` to the assigned machine's sequence alone, and leaves the times of scheduled operations unchanged |
| Walk.Run | src/solution/solution.cpp:151-181 | after the walk each job's counter has grown by its number of occurrences in the order |
| WalkProofs.StepStart | src/solution/solution.cpp:155-172 | the new operation starts at the larger of its job's previous end (0 for a first operation) and its machine's last end (0 for an idle machine), both ≥ 0, and ends its processing time later |
| WalkProofs.StepSemiActive | src/solution/solution.cpp:158-169 | a step keeps every operation starting exactly at the later of its job predecessor's end and its machine predecessor's end |
| WalkProofs.StepKeeps | src/solution/solution.cpp:151-181 | a step keeps every walk invariant: (1) every scheduled operation is on its machine; (2) no machine repeats an operation; (3) starts are non-negative and ends = start + time; (4) no overlap along a job or a machine; (5) each operation starts at the later of its predecessors' ends; (6) ends ≤ the total workload; (7) each machine's last end ≥ its workload |
| WalkProofs.RunKeeps | src/solution/solution.cpp:151-181 | the whole walk keeps the invariant |
| WalkProofs.RunLoadBound | src/solution/solution.cpp:171-175 | each step adds at most the largest processing time to the total workload |
| WalkProofs.RunAgrees | src/solver/nsbrkga/decoder.cpp:131-160 | two walks whose buffers differ only in entries of unscheduled operations stay that way: stale entries are never read |
| KeySolutions.InitialState | src/solution/solution.cpp:186-208 | the walk starts from instance-shaped buffers with no operation scheduled and empty machine sequences |
| KeySolutions.ValidTimesPositive | src/instance/instance.cpp:125-198 | a valid instance has: (1) times ≥ epsilon; (2) non-negative times; (3) at least one job and an operation in every job; (4) every time listed by its machine |
| KeySolutions.KeyAssignment | src/solution/solution.cpp:115-133 | every machine a key chooses has a processing time for its operation |
| KeySolutions.KeyOrderFeasible | src/solution/solution.cpp:148-160 | no job's counter in the release order passes its last operation |
| KeySolutions.Schedule | src/solution/solution.cpp:148-181 | after the walk every job's counter equals its operation count |
| KeySolutions.ScheduleFinished | src/solution/solution.cpp:148-181 | the walk over the key's order keeps every invariant, and the total workload is at most `total_num_operations` repetitions of the largest time |
| KeySolutions.SolutionFromKey | src/solution/solution.cpp:107-184 | the key constructor gives every operation a machine from its eligible list and three objective values |
| KeySolutions.FinishedListsEachOnce | src/solution/solution.cpp:174-175 | after the walk each operation is in its assigned machine's sequence, in no other, and only once |
| KeySolutions.MakespanWithinTotal | src/solution/solution.cpp:400-402 | the makespan of a finished walk is at most the total workload |
| KeySolutions.LoadsWithinMakespan | src/solution/solution.cpp:404-406 | the largest machine workload is at most the makespan |
| KeySolutions.ValuesWithinBounds | src/solution/solution.cpp:408-412 | the three values stay within the first three primal bounds |
| KeySolutions.FinishedNoIdle | src/solution/solution.cpp:357-392 | every operation of the walk starts when its job's previous operation ends (0 for a first operation) or when its machine's previous operation ends |
| KeySolutions.FinishedFeasible | src/solution/solution.cpp:210-415 | a finished walk passes the size, index, timing, no-idle and value checks |
| KeySolutions.KeySolutionFeasible | src/solution/solution.cpp:210-415 | for a valid instance with computed bounds, every key of the decoder's shape yields a solution that `is_feasible` accepts, under both the written and the intended no-idle check |
| Solutions.CheckDominates | src/solution/solution.cpp:8-29 | the two loops return true exactly when both vectors have 3 entries, A is nowhere worse than B by more than epsilon and somewhere better by more than epsilon; false for any other length |
| Solutions.DominatesAsymmetric | src/solution/solution.cpp:15-28 | no two vectors dominate each other |
| Solutions.ComputeValue | src/solution/solution.cpp:31-76 | value 0 is ≥ 0, covers every job's last end and is 0 or one of them; value 1 is the sum of the machine workloads; value 2 covers every workload and is 0 or one of them; with non-negative times value 2 ≤ value 1 |
| Solutions.EmptySolution | src/solution/solution.cpp:186-208 | `Solution(instance)` sizes every buffer by the instance, zero-fills them, leaves every machine sequence empty and holds three values |
| Solutions.JobMajorComplete | src/solution/solution.cpp:81-84 | the job-major loop visits every (job, operation) of the instance |
| Solutions.JobMajorDistinct | src/solution/solution.cpp:81-84 | the job-major loop visits each pair once |
| Solutions.OnMachineMembers | src/solution/solution.cpp:85-92 | a pair is on machine `m` exactly when it is visited and assigned to `m` |
| Solutions.Distribute | src/solution/solution.cpp:91-92 | the `push_back` loop gives each machine exactly the visited pairs assigned to it, in visiting order |
| Solutions.Init | src/solution/solution.cpp:78-98 | `init` succeeds exactly when every assigned machine has a time, otherwise the lookup fails. On success: (1) the assignment and the starts are kept; (2) every end minus its start is the processing time; (3) machine `m`'s sequence holds exactly the operations assigned to `m`, once each, in job-major order (job by job, operation by operation), all with listed times; (4) the values are the three that `compute_value` gives for these sequences and ending times |
| Solutions.InitSequences | src/solution/solution.cpp:81-95 | machine `m`'s sequence holds exactly the operations assigned to `m`, once each, in job-major order, all with listed times |
| Solutions.ExplicitAsWritten | src/solution/solution.cpp:100-105 | the constructor as written schedules the zero-filled assignment and start times whatever its arguments: it succeeds exactly when machine 0 has a time for every operation, and then gives what `init` gives for the zero-filled buffers (job-major sequences, `compute_value`'s values) |
| Solutions.ExplicitSolution | src/solution/solution.cpp:100-105 | the constructor with its arguments stored succeeds exactly when every assigned machine has a time, and keeps the given assignment and starts; its sequences are in job-major order and its values are `compute_value`'s, as for `init` |
| Solutions.ExplicitIgnoresArguments | src/solution/solution.cpp:100-105 | on a one-operation instance where only machine 1 is eligible, the constructor as written fails and the corrected one succeeds |
| Solutions.IntendedIsFeasible | src/solution/solution.cpp:357-392 | the intended no-idle check is stricter than the written one |
| Solutions.IdleFirstOperationAccepted | src/solution/solution.cpp:357-392 | a job's first operation that starts late on an idle machine passes `is_feasible` as written and fails the intended check |
| Decoders.NewDecoder | src/solver/nsbrkga/decoder.cpp:7-48 | one set of buffers per thread: sized by the instance, with empty machine sequences and zero job counters |
| Decoders.DecodedValues | src/solver/nsbrkga/decoder.cpp:162-196 | the decoder returns `num_objectives` values |
| Decoders.ChooseMachines | src/solver/nsbrkga/decoder.cpp:96-114 | the nested selection loops write, for every operation, the machine the threshold count picks |
| Decoders.SameAssignment | src/solver/nsbrkga/decoder.cpp:96-114 | the decoder's machine choice is the key constructor's |
| Decoders.FillPermutation | src/solver/nsbrkga/decoder.cpp:118-125 | the permutation loop pairs position `i`'s second-half value with its job, as the key constructor does |
| Decoders.RunWalk | src/solver/nsbrkga/decoder.cpp:131-160 | the decoder's scheduling loop computes the shared walk over the sorted jobs |
| Decoders.CompletionValues | src/solver/nsbrkga/decoder.cpp:163-172 | the loop computes the largest and the sum of the jobs' completion times |
| Decoders.MachineLoad | src/solver/nsbrkga/decoder.cpp:182-187 | the inner loop computes the machine's workload |
| Decoders.WorkloadValues | src/solver/nsbrkga/decoder.cpp:176-194 | the loop computes the largest and the sum of the machine workloads |
| Decoders.StaleBuffersIgnored | src/solver/nsbrkga/decoder.cpp:86-160 | once the sequences are cleared and the counters reset, the walk from a thread's reused buffers ends in the same sequences and times as the walk from fresh buffers |
| Decoders.WalkBuffers | src/solver/nsbrkga/decoder.cpp:86-160 | the first three loops produce the key constructor's assignment and the schedule's sequences, starts and ends |
| Decoders.Decode | src/solver/nsbrkga/decoder.cpp:50-197 | the returned values are a function of the chromosome alone, whatever the thread's buffers held; other threads' buffers are untouched and this thread's stay sized and hold the values |
| Decoders.DecoderAgreesWithSolution | src/solver/nsbrkga/decoder.cpp:162-194 | decoder values 0, 2 and 3 equal values 0, 2 and 1 of the key constructor's solution for the same key |
| Decoders.DecodedValuesOrdered | src/solver/nsbrkga/decoder.cpp:162-194 | 0 ≤ largest workload ≤ makespan ≤ total completion time, makespan ≤ total workload, largest workload ≤ total workload |

## Left out

- The map-based `Instance` constructor (src/instance/instance.cpp:30-91). It counts one job and one machine per map entry, not per distinct index, so its output is not a meaningful instance.
- `Instance::operator=` and the instance writer (src/instance/instance.cpp:97-110, 280-300). One is a field copy. The writer emits `machine + 1` and no separator after the job count, so no round trip with the reader holds.
- Solution text input and output (src/solution/solution.cpp:421-452): stream formatting.
- The member `dominates(Solution)` (src/solution/solution.cpp:417-419) forwards to the vector version, which `Solutions.CheckDominates` models.
- `reserve` calls (src/solution/solution.cpp:202-207, src/solver/nsbrkga/decoder.cpp:41-46, 90-91): they change capacity only, never contents.
- OpenMP: the thread number is a parameter of `Decoders.Decode`. Concurrent calls are not modelled.
- Floating point: times are exact reals, and `Eps` is 2^-52 (only its positivity is used).
  - `j += delta` accumulates no rounding error in `Keys.SelectIndexLoop`.
  - Sums and maxima are exact, so the iteration order of `std::map` does not matter and the map folds are over key sets.
- Instances.PrimalBound: does not model the 32-bit wrap-around of the unsigned product `num_jobs * total_num_operations`. Products with a time are written as repeated addition; `Common.MultipleIsProduct` shows this equals the real product.
- Instances.WellFormed: the source never checks that stored indices are in range or that `total_num_operations` is the sum of the counts. It indexes with them anyway, where a bad index is undefined behaviour. The model carries these facts as a precondition, and the reader establishes them.
- InstanceReader.ReadEntries: a machine token not below `num_machines` is an error (`MachineOutOfRange`). The source writes past the end of `operations_of_machine` there.
- InstanceReader.ReadInstance: only well-formed input is modelled, and anything else is an error.
  - A negative count token is an error. The source reads it into an `unsigned`, where -1 becomes 4294967295. That gives a huge `resize` or a write past the end at src/instance/instance.cpp:269.
  - A missing or non-integer count token is an error. The source's stream sets its failbit and carries on (src/instance/instance.cpp:231-273): the reads that follow do nothing, and it still builds a partial instance and computes its bounds.
  - The objective senses set at src/instance/instance.cpp:246 are not modelled, because the solver library's `Sense` type is not part of this model.
- Lookups that throw or index out of range:
  - In `Solutions.Init`, a missing processing time is the error result `MissingProcessingTime`.
  - In `Solutions.IsFeasible`, a missing time makes the check false.
  - In `Solutions.IsFeasible`, a (job, operation) in a machine sequence outside the instance also makes the check false. The source indexes `machine_of_operation[job][operation]` with it unchecked (src/solution/solution.cpp:289), which is undefined behaviour.
- Solutions.Init: requires every job to have an operation, because `compute_value` reads `back()` of every job's end times.
- KeySolutions.SolutionFromKey: requires a valid instance and a key whose first half is at most 1. A larger value would move the machine iterator past the end of the eligible list. An invalid instance can make the lookups throw or index out of range. The same holds for `Decoders.Decode`.
- Decoders.DecodedValues: describes the values only through the schedule. Their properties are `Decoders.DecodedValuesOrdered` and `Decoders.DecoderAgreesWithSolution`.

## Findings

| source | as written | input that shows it | evidently intended | confidence | as-written member | corrected member |
|---|---|---|---|---|---|---|
| src/solution/solution.cpp:100-105 | the explicit-assignment constructor delegates to `Solution(instance)` and calls `init()` without storing its two arguments, so it schedules every operation on machine 0 at time 0 | one job with one operation that only machine 1 processes, assignment `[[1]]`, starts `[[0.0]]`: `init` looks up the time of machine 0, which is missing, and throws | copy the assignment and the starting times before `init()` | high, not executed | Solutions.ExplicitAsWritten, Solutions.ExplicitIgnoresArguments | Solutions.ExplicitSolution |
| src/solution/solution.cpp:357-392 | the no-idle check skips a job's first operation (`operation != 0` guards the job test, and at the machine's front nothing else is checked), so a first operation may start at any time | two one-operation jobs on machines 0 and 1, each of time 5; job 1 starts at 3.0 on its idle machine and `is_feasible` returns true | a first operation starts at time 0 or when its machine's previous operation ends | medium, not executed | Solutions.IsFeasible, Solutions.IdleFirstOperationAccepted | Solutions.IsFeasibleIntended, KeySolutions.KeySolutionFeasible |
