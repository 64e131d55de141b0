/**
  The text of an instance file as a sequence of whitespace-separated tokens,
  and the listing it carries: `num_jobs num_machines`, then per job its
  operation count, and per operation the count of its pairs followed by that
  many `machine time` pairs. `Render` writes a listing as the tokens the
  reader expects; `PairsAt`, `OperationsAt` and `JobsAt` take a listing back
  from the tokens, and each reads back exactly what was rendered.
 */
module InstanceText {
  import opened Common

  /** A token of the text: an integer literal or a decimal literal. */
  datatype Token = Integer(i: int) | Decimal(x: real)

  /** The `machine time` pairs listed for one operation, in file order. */
  type Pairs = seq<(nat, real)>

  /** `is >> unsigned`: a non-negative integer token. */
  function ReadCount(toks: seq<Token>, pos: nat): (r: Result<nat>)
    ensures r.Ok? <==> pos < |toks| && toks[pos].Integer? && toks[pos].i >= 0
    ensures r.Ok? ==> toks[pos] == Integer(r.value)
  {
    if pos < |toks| && toks[pos].Integer? && toks[pos].i >= 0 then Ok(toks[pos].i)
    else Err(MalformedInput)
  }

  /** `is >> double`: any numeric token. */
  function ReadTime(toks: seq<Token>, pos: nat): (r: Result<real>)
    ensures r.Ok? <==> pos < |toks|
    ensures r.Ok? ==> ReadsAs(toks[pos], Decimal(r.value))
  {
    if pos >= |toks| then Err(MalformedInput)
    else match toks[pos]
      case Integer(i) => Ok(i as real)
      case Decimal(x) => Ok(x)
  }

  /** Each pair as `machine time`. */
  function RenderPairs(ps: Pairs): (ts: seq<Token>)
    ensures |ts| == 2 * |ps|
  {
    if |ps| == 0 then [] else [Integer(ps[0].0), Decimal(ps[0].1)] + RenderPairs(ps[1..])
  }

  /** Each operation as its pair count followed by its pairs. */
  function RenderOperations(ops: seq<Pairs>): seq<Token>
  {
    if |ops| == 0 then [] else [Integer(|ops[0]|)] + RenderPairs(ops[0]) + RenderOperations(ops[1..])
  }

  /** Each job as its operation count followed by its operations. */
  function RenderJobs(jobs: seq<seq<Pairs>>): seq<Token>
  {
    if |jobs| == 0 then [] else [Integer(|jobs[0]|)] + RenderOperations(jobs[0]) + RenderJobs(jobs[1..])
  }

  /** A whole instance file listing `jobs` on `numMachines` machines. */
  function Render(numMachines: nat, jobs: seq<seq<Pairs>>): seq<Token>
  {
    [Integer(|jobs|), Integer(numMachines)] + RenderJobs(jobs)
  }

  /** The input token `t` reads as the rendered token `r`: a count must be
      that very integer, a time may be written as an integer or a decimal. */
  predicate ReadsAs(t: Token, r: Token)
  {
    match r
    case Integer(n) => t == Integer(n)
    case Decimal(x) => (t.Decimal? && t.x == x) || (t.Integer? && t.i as real == x)
  }

  /** The input holds at position `p` a token that reads as `r`. */
  predicate TokenAt(toks: seq<Token>, p: int, r: Token)
  {
    0 <= p < |toks| && ReadsAs(toks[p], r)
  }

  /** The `i`-th token of `ts` is read at offset `i` from `pos`. */
  predicate AgreeAt(toks: seq<Token>, pos: nat, ts: seq<Token>, i: nat)
  {
    i < |ts| && TokenAt(toks, pos + i, ts[i])
  }

  /** The input from `pos` on reads as the tokens `ts`. */
  predicate Agree(toks: seq<Token>, pos: nat, ts: seq<Token>)
  {
    forall i: nat :: i < |ts| ==> AgreeAt(toks, pos, ts, i)
  }

  lemma AgreeAppend(toks: seq<Token>, pos: nat, a: seq<Token>, b: seq<Token>)
    ensures Agree(toks, pos, a + b) <==> Agree(toks, pos, a) && Agree(toks, pos + |a|, b)
  {
    if Agree(toks, pos, a + b) {
      forall i: nat | i < |a| ensures AgreeAt(toks, pos, a, i) {
        assert AgreeAt(toks, pos, a + b, i);
        assert (a + b)[i] == a[i];
      }
      var q := pos + |a|;
      forall i: nat | i < |b| ensures AgreeAt(toks, q, b, i) {
        assert AgreeAt(toks, pos, a + b, |a| + i);
        assert (a + b)[|a| + i] == b[i];
      }
    }
    if Agree(toks, pos, a) && Agree(toks, pos + |a|, b) {
      forall i: nat | i < |a + b| ensures AgreeAt(toks, pos, a + b, i) {
        if i < |a| {
          assert AgreeAt(toks, pos, a, i);
          assert (a + b)[i] == a[i];
        } else {
          assert AgreeAt(toks, pos + |a|, b, i - |a|);
          assert (a + b)[i] == b[i - |a|];
        }
      }
    }
  }

  lemma AgreeOne(toks: seq<Token>, pos: nat, t: Token)
    ensures Agree(toks, pos, [t]) <==> TokenAt(toks, pos, t)
  {
    assert AgreeAt(toks, pos, [t], 0) <==> TokenAt(toks, pos, t);
  }

  lemma AgreeTwo(toks: seq<Token>, pos: nat, t: Token, u: Token)
    ensures Agree(toks, pos, [t, u]) <==> TokenAt(toks, pos, t) && TokenAt(toks, pos + 1, u)
  {
    assert AgreeAt(toks, pos, [t, u], 0) <==> TokenAt(toks, pos, t);
    assert AgreeAt(toks, pos, [t, u], 1) <==> TokenAt(toks, pos + 1, u);
  }

  /** A pair followed by the rest reads as the rendering of all of them. */
  lemma PairsAgreeCons(toks: seq<Token>, pos: nat, p: (nat, real), rest: Pairs)
    ensures Agree(toks, pos, RenderPairs([p] + rest)) <==>
      && TokenAt(toks, pos, Integer(p.0))
      && TokenAt(toks, pos + 1, Decimal(p.1))
      && Agree(toks, pos + 2, RenderPairs(rest))
  {
    assert ([p] + rest)[0] == p && ([p] + rest)[1..] == rest;
    AgreeAppend(toks, pos, [Integer(p.0), Decimal(p.1)], RenderPairs(rest));
    AgreeTwo(toks, pos, Integer(p.0), Decimal(p.1));
  }

  /** An operation's count and pairs followed by the later operations read
      as the rendering of all of them. */
  lemma OperationsAgreeCons(toks: seq<Token>, pos: nat, ps: Pairs, rest: seq<Pairs>)
    ensures Agree(toks, pos, RenderOperations([ps] + rest)) <==>
      && TokenAt(toks, pos, Integer(|ps|))
      && Agree(toks, pos + 1, RenderPairs(ps))
      && Agree(toks, pos + 1 + 2 * |ps|, RenderOperations(rest))
  {
    assert ([ps] + rest)[0] == ps && ([ps] + rest)[1..] == rest;
    AgreeAppend(toks, pos, [Integer(|ps|)] + RenderPairs(ps), RenderOperations(rest));
    AgreeAppend(toks, pos, [Integer(|ps|)], RenderPairs(ps));
    AgreeOne(toks, pos, Integer(|ps|));
  }

  lemma RenderJobsCons(ops: seq<Pairs>, rest: seq<seq<Pairs>>)
    ensures RenderJobs([ops] + rest) == [Integer(|ops|)] + RenderOperations(ops) + RenderJobs(rest)
  {
    assert ([ops] + rest)[0] == ops && ([ops] + rest)[1..] == rest;
  }

  /** A job's count and operations followed by the later jobs read as the
      rendering of all of them. */
  lemma JobsAgreeCons(toks: seq<Token>, pos: nat, ops: seq<Pairs>, rest: seq<seq<Pairs>>)
    ensures Agree(toks, pos, RenderJobs([ops] + rest)) <==>
      && TokenAt(toks, pos, Integer(|ops|))
      && Agree(toks, pos + 1, RenderOperations(ops))
      && Agree(toks, pos + 1 + |RenderOperations(ops)|, RenderJobs(rest))
  {
    RenderJobsCons(ops, rest);
    AgreeAppend(toks, pos, [Integer(|ops|)] + RenderOperations(ops), RenderJobs(rest));
    AgreeAppend(toks, pos, [Integer(|ops|)], RenderOperations(ops));
    AgreeOne(toks, pos, Integer(|ops|));
  }

  lemma AgreeTwoThen(toks: seq<Token>, t: Token, u: Token, rest: seq<Token>)
    ensures Agree(toks, 0, [t, u] + rest) <==>
      TokenAt(toks, 0, t) && TokenAt(toks, 1, u) && Agree(toks, 2, rest)
  {
    AgreeAppend(toks, 0, [t, u], rest);
    AgreeTwo(toks, 0, t, u);
  }

  /** The whole file: the two counts, then the jobs. */
  lemma RenderAgree(toks: seq<Token>, numMachines: nat, jobs: seq<seq<Pairs>>)
    ensures Agree(toks, 0, Render(numMachines, jobs)) <==>
      && TokenAt(toks, 0, Integer(|jobs|))
      && TokenAt(toks, 1, Integer(numMachines))
      && Agree(toks, 2, RenderJobs(jobs))
  {
    AgreeTwoThen(toks, Integer(|jobs|), Integer(numMachines), RenderJobs(jobs));
  }

  /** Every machine of the pairs is below `n`. */
  ghost predicate PairsBelow(ps: Pairs, n: nat)
  {
    forall i :: 0 <= i < |ps| ==> ps[i].0 < n
  }

  ghost predicate OperationsBelow(ops: seq<Pairs>, n: nat)
  {
    forall o :: 0 <= o < |ops| ==> PairsBelow(ops[o], n)
  }

  ghost predicate JobsBelow(jobs: seq<seq<Pairs>>, n: nat)
  {
    forall j :: 0 <= j < |jobs| ==> OperationsBelow(jobs[j], n)
  }

  /** The `count` pairs at `pos`, read on their own. */
  ghost function PairsAt(toks: seq<Token>, pos: nat, count: nat): (r: Result<Pairs>)
    ensures r.Ok? ==> |r.value| == count
    decreases count
  {
    if count == 0 then Ok([])
    else
      match ReadCount(toks, pos)
      case Err(e) => Err(e)
      case Ok(machine) =>
        match ReadTime(toks, pos + 1)
        case Err(e) => Err(e)
        case Ok(time) =>
          match PairsAt(toks, pos + 2, count - 1)
          case Err(e) => Err(e)
          case Ok(rest) => Ok([(machine, time)] + rest)
  }

  /** One pair read, then the later ones. */
  lemma PairsAtStep(toks: seq<Token>, pos: nat, machine: nat, time: real, n: nat, rest: Pairs)
    requires ReadCount(toks, pos) == Ok(machine) && ReadTime(toks, pos + 1) == Ok(time)
    requires PairsAt(toks, pos + 2, n) == Ok(rest)
    ensures PairsAt(toks, pos, n + 1) == Ok([(machine, time)] + rest)
  {
  }

  /** What `PairsAt` reads is what the tokens say. */
  lemma {:induction false} PairsAtAgree(toks: seq<Token>, pos: nat, count: nat)
    requires PairsAt(toks, pos, count).Ok?
    ensures Agree(toks, pos, RenderPairs(PairsAt(toks, pos, count).value))
    decreases count
  {
    if count > 0 {
      var machine, time := ReadCount(toks, pos).value, ReadTime(toks, pos + 1).value;
      var rest := PairsAt(toks, pos + 2, count - 1).value;
      PairsAtAgree(toks, pos + 2, count - 1);
      PairsAtStep(toks, pos, machine, time, count - 1, rest);
      PairsAgreeCons(toks, pos, (machine, time), rest);
    }
  }

  /** Rendered pairs are read back as they were written. */
  lemma {:induction false} PairsAtRendered(toks: seq<Token>, pos: nat, ps: Pairs)
    requires Agree(toks, pos, RenderPairs(ps))
    ensures PairsAt(toks, pos, |ps|) == Ok(ps)
    decreases |ps|
  {
    if |ps| > 0 {
      assert [ps[0]] + ps[1..] == ps;
      PairsAgreeCons(toks, pos, ps[0], ps[1..]);
      PairsAtRendered(toks, pos + 2, ps[1..]);
      PairsAtStep(toks, pos, ps[0].0, ps[0].1, |ps| - 1, ps[1..]);
    }
  }

  /** The `n` operations at `pos`, each a pair count and its pairs. */
  ghost function OperationsAt(toks: seq<Token>, pos: nat, n: nat): (r: Result<seq<Pairs>>)
    ensures r.Ok? ==> |r.value| == n
    decreases n
  {
    if n == 0 then Ok([])
    else
      match ReadCount(toks, pos)
      case Err(e) => Err(e)
      case Ok(count) =>
        match PairsAt(toks, pos + 1, count)
        case Err(e) => Err(e)
        case Ok(ps) =>
          match OperationsAt(toks, pos + 1 + 2 * count, n - 1)
          case Err(e) => Err(e)
          case Ok(rest) => Ok([ps] + rest)
  }

  /** One operation read back, then the later ones. */
  lemma OperationsAtStep(toks: seq<Token>, pos: nat, count: nat, ps: Pairs, n: nat, rest: seq<Pairs>)
    requires ReadCount(toks, pos) == Ok(count)
    requires PairsAt(toks, pos + 1, count) == Ok(ps)
    requires OperationsAt(toks, pos + 1 + 2 * count, n) == Ok(rest)
    ensures OperationsAt(toks, pos, n + 1) == Ok([ps] + rest)
  {
  }

  /** What `OperationsAt` reads is what the tokens say. */
  lemma {:induction false} OperationsAtAgree(toks: seq<Token>, pos: nat, n: nat)
    requires OperationsAt(toks, pos, n).Ok?
    ensures Agree(toks, pos, RenderOperations(OperationsAt(toks, pos, n).value))
    decreases n
  {
    if n > 0 {
      var count := ReadCount(toks, pos).value;
      var ps := PairsAt(toks, pos + 1, count).value;
      var rest := OperationsAt(toks, pos + 1 + 2 * count, n - 1).value;
      PairsAtAgree(toks, pos + 1, count);
      OperationsAtAgree(toks, pos + 1 + 2 * count, n - 1);
      OperationsAtStep(toks, pos, count, ps, n - 1, rest);
      OperationsAgreeCons(toks, pos, ps, rest);
    }
  }

  lemma {:induction false} OperationsAtRendered(toks: seq<Token>, pos: nat, ops: seq<Pairs>)
    requires Agree(toks, pos, RenderOperations(ops))
    ensures OperationsAt(toks, pos, |ops|) == Ok(ops)
    decreases |ops|
  {
    if |ops| > 0 {
      assert [ops[0]] + ops[1..] == ops;
      OperationsAgreeCons(toks, pos, ops[0], ops[1..]);
      PairsAtRendered(toks, pos + 1, ops[0]);
      OperationsAtRendered(toks, pos + 1 + 2 * |ops[0]|, ops[1..]);
      OperationsAtStep(toks, pos, |ops[0]|, ops[0], |ops| - 1, ops[1..]);
    }
  }

  /** The `n` jobs at `pos`, each an operation count and its operations. */
  ghost function JobsAt(toks: seq<Token>, pos: nat, n: nat): (r: Result<seq<seq<Pairs>>>)
    ensures r.Ok? ==> |r.value| == n
    decreases n
  {
    if n == 0 then Ok([])
    else
      match ReadCount(toks, pos)
      case Err(e) => Err(e)
      case Ok(count) =>
        match OperationsAt(toks, pos + 1, count)
        case Err(e) => Err(e)
        case Ok(ops) =>
          match JobsAt(toks, pos + 1 + |RenderOperations(ops)|, n - 1)
          case Err(e) => Err(e)
          case Ok(rest) => Ok([ops] + rest)
  }

  /** One job read back, then the later ones. */
  lemma JobsAtStep(toks: seq<Token>, pos: nat, count: nat, ops: seq<Pairs>, n: nat, rest: seq<seq<Pairs>>)
    requires ReadCount(toks, pos) == Ok(count)
    requires OperationsAt(toks, pos + 1, count) == Ok(ops)
    requires JobsAt(toks, pos + 1 + |RenderOperations(ops)|, n) == Ok(rest)
    ensures JobsAt(toks, pos, n + 1) == Ok([ops] + rest)
  {
  }

  /** What `JobsAt` reads is what the tokens say. */
  lemma {:induction false} JobsAtAgree(toks: seq<Token>, pos: nat, n: nat)
    requires JobsAt(toks, pos, n).Ok?
    ensures Agree(toks, pos, RenderJobs(JobsAt(toks, pos, n).value))
    decreases n
  {
    if n > 0 {
      var count := ReadCount(toks, pos).value;
      var ops := OperationsAt(toks, pos + 1, count).value;
      var rest := JobsAt(toks, pos + 1 + |RenderOperations(ops)|, n - 1).value;
      OperationsAtAgree(toks, pos + 1, count);
      JobsAtAgree(toks, pos + 1 + |RenderOperations(ops)|, n - 1);
      JobsAtStep(toks, pos, count, ops, n - 1, rest);
      JobsAgreeCons(toks, pos, ops, rest);
    }
  }

  lemma {:induction false} JobsAtRendered(toks: seq<Token>, pos: nat, jobs: seq<seq<Pairs>>)
    requires Agree(toks, pos, RenderJobs(jobs))
    ensures JobsAt(toks, pos, |jobs|) == Ok(jobs)
    decreases |jobs|
  {
    if |jobs| > 0 {
      assert [jobs[0]] + jobs[1..] == jobs;
      JobsAgreeCons(toks, pos, jobs[0], jobs[1..]);
      OperationsAtRendered(toks, pos + 1, jobs[0]);
      JobsAtRendered(toks, pos + 1 + |RenderOperations(jobs[0])|, jobs[1..]);
      JobsAtStep(toks, pos, |jobs[0]|, jobs[0], |jobs| - 1, jobs[1..]);
    }
  }
}
