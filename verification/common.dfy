/**
  Shared vocabulary of the flexible job-shop model: index pairs and triples,
  the numeric tolerance, the error type of the readers, and sums and maxima
  over sequences of reals (the accumulation loops of the scheduler all fold
  from the front, so these are defined by peeling the LAST element).
 */
module Common {

  /** `std::numeric_limits<double>::epsilon()`, that is 2^-52. Only its
      positivity matters to the proofs. */
  const Eps: real := 1.0 / 4503599627370496.0

  /** A (job, operation) pair. */
  type Op = (nat, nat)

  /** A (job, operation, machine) triple, the key of the processing times. */
  type Triple = (nat, nat, nat)

  datatype Error =
    | MalformedInput        // a token is missing or is not of the expected kind
    | MachineOutOfRange     // a machine index is not below the machine count
    | MissingProcessingTime // a (job, operation, machine) triple has no time

  datatype Result<+T> = Ok(value: T) | Err(error: Error)

  function Last<T>(s: seq<T>): T
    requires |s| > 0
  {
    s[|s| - 1]
  }

  function DropLast<T>(s: seq<T>): seq<T>
    requires |s| > 0
  {
    s[..|s| - 1]
  }

  function Max(a: real, b: real): real
  {
    if a < b then b else a
  }

  /** `fabs`. */
  function Abs(x: real): real
  {
    if x < 0.0 then -x else x
  }

  /** Sum of a sequence of reals, accumulated from the front. */
  function Sum(xs: seq<real>): real
  {
    if |xs| == 0 then 0.0 else Sum(DropLast(xs)) + Last(xs)
  }

  /** The running maximum `if (acc < x) acc = x` seeded with 0.0. */
  function Max0(xs: seq<real>): (r: real)
    ensures r >= 0.0
    ensures forall i :: 0 <= i < |xs| ==> xs[i] <= r
    ensures r == 0.0 || exists i :: 0 <= i < |xs| && xs[i] == r
  {
    if |xs| == 0 then 0.0
    else
      var m := Max0(DropLast(xs));
      assert forall i :: 0 <= i < |xs| - 1 ==> DropLast(xs)[i] == xs[i];
      if m < Last(xs) then Last(xs) else m
  }

  /** Sum of a sequence of naturals, accumulated from the front. */
  function NatSum(xs: seq<nat>): nat
  {
    if |xs| == 0 then 0 else NatSum(DropLast(xs)) + Last(xs)
  }

  /** `n * c`, by repeated addition. */
  function Multiple(n: nat, c: real): real
  {
    if n == 0 then 0.0 else Multiple(n - 1, c) + c
  }

  predicate AllNonNegative(xs: seq<real>)
  {
    forall i :: 0 <= i < |xs| ==> xs[i] >= 0.0
  }

  /** No element occurs twice. */
  predicate Distinct<T(==)>(s: seq<T>)
  {
    forall i, k :: 0 <= i < k < |s| ==> s[i] != s[k]
  }

  lemma {:induction false} SumNonNegative(xs: seq<real>)
    requires AllNonNegative(xs)
    ensures Sum(xs) >= 0.0
  {
    if |xs| > 0 {
      SumNonNegative(DropLast(xs));
    }
  }

  /** Each entry of a non-negative sequence is bounded by the sum. */
  lemma {:induction false} EntryAtMostSum(xs: seq<real>, i: nat)
    requires AllNonNegative(xs)
    requires i < |xs|
    ensures xs[i] <= Sum(xs)
  {
    SumNonNegative(DropLast(xs));
    if i < |xs| - 1 {
      EntryAtMostSum(DropLast(xs), i);
    }
  }

  /** For non-negative entries the running maximum is at most the sum. */
  lemma Max0AtMostSum(xs: seq<real>)
    requires AllNonNegative(xs)
    ensures Max0(xs) <= Sum(xs)
  {
    SumNonNegative(xs);
    if Max0(xs) != 0.0 {
      var i :| 0 <= i < |xs| && xs[i] == Max0(xs);
      EntryAtMostSum(xs, i);
    }
  }

  /** The running maximum is the least non-negative upper bound. */
  lemma Max0Least(xs: seq<real>, c: real)
    requires c >= 0.0
    requires forall i :: 0 <= i < |xs| ==> xs[i] <= c
    ensures Max0(xs) <= c
  {
  }

  /** Replacing one entry changes the sum by the difference. */
  lemma {:induction false} SumUpdate(xs: seq<real>, i: nat, v: real)
    requires i < |xs|
    ensures Sum(xs[i := v]) == Sum(xs) - xs[i] + v
  {
    var ys := xs[i := v];
    if i == |xs| - 1 {
      assert DropLast(ys) == DropLast(xs);
    } else {
      assert DropLast(ys) == DropLast(xs)[i := v];
      SumUpdate(DropLast(xs), i, v);
    }
  }

  /** Pointwise smaller sequences have smaller sums. */
  lemma {:induction false} SumMonotone(xs: seq<real>, ys: seq<real>)
    requires |xs| == |ys|
    requires forall i :: 0 <= i < |xs| ==> xs[i] <= ys[i]
    ensures Sum(xs) <= Sum(ys)
  {
    if |xs| > 0 {
      SumMonotone(DropLast(xs), DropLast(ys));
    }
  }

  /** The sum of the first `j` entries is at most the sum of the first `j + 1`. */
  lemma {:induction false} NatSumPrefixStep(xs: seq<nat>, j: nat)
    requires j < |xs|
    ensures NatSum(xs[..j + 1]) == NatSum(xs[..j]) + xs[j]
  {
    assert DropLast(xs[..j + 1]) == xs[..j];
  }

  /** Prefix sums are bounded by the whole sum. */
  lemma {:induction false} NatSumPrefixBound(xs: seq<nat>, j: nat)
    requires j < |xs|
    ensures NatSum(xs[..j]) + xs[j] <= NatSum(xs)
  {
    NatSumPrefixStep(xs, j);
    if j + 1 < |xs| {
      NatSumPrefixMonotone(xs, j + 1, |xs|);
      assert xs[..|xs|] == xs;
    } else {
      assert xs[..j + 1] == xs;
    }
  }

  lemma {:induction false} NatSumPrefixMonotone(xs: seq<nat>, a: nat, b: nat)
    requires a <= b <= |xs|
    ensures NatSum(xs[..a]) <= NatSum(xs[..b])
    decreases b - a
  {
    if a < b {
      NatSumPrefixStep(xs, a);
      NatSumPrefixMonotone(xs, a + 1, b);
    }
  }

  /** A duplicate-free sequence whose elements all occur in `ys` is no longer than `ys`. */
  lemma DistinctSubsetLength<T>(xs: seq<T>, ys: seq<T>)
    requires Distinct(xs)
    requires forall i :: 0 <= i < |xs| ==> xs[i] in ys
    ensures |xs| <= |ys|
  {
    DistinctCard(xs);
    SeqSetCard(ys);
    var sx := set x | x in xs;
    var sy := set y | y in ys;
    assert sy == sx + (sy - sx);
    assert |sy| == |sx| + |sy - sx|;
  }

  lemma {:induction false} DistinctCard<T>(xs: seq<T>)
    requires Distinct(xs)
    ensures |set x | x in xs| == |xs|
  {
    if |xs| > 0 {
      var ys := DropLast(xs);
      DistinctCard(ys);
      assert (set x | x in xs) == (set y | y in ys) + {Last(xs)};
      assert Last(xs) !in (set y | y in ys);
    }
  }

  lemma {:induction false} SeqSetCard<T>(xs: seq<T>)
    ensures |set x | x in xs| <= |xs|
  {
    if |xs| > 0 {
      var ys := DropLast(xs);
      SeqSetCard(ys);
      assert (set x | x in xs) == (set y | y in ys) + {Last(xs)};
    }
  }

  lemma {:induction false} MultipleIsProduct(n: nat, c: real)
    ensures Multiple(n, c) == n as real * c
  {
    if n > 0 {
      MultipleIsProduct(n - 1, c);
    }
  }

  lemma {:induction false} MultipleMonotone(n: nat, x: real, y: real)
    requires x <= y
    ensures Multiple(n, x) <= Multiple(n, y)
  {
    if n > 0 {
      MultipleMonotone(n - 1, x, y);
    }
  }

  lemma {:induction false} MultipleNonNegative(n: nat, c: real)
    requires c >= 0.0
    ensures Multiple(n, c) >= 0.0
  {
    if n > 0 {
      MultipleNonNegative(n - 1, c);
    }
  }

  /** A non-negative amount taken at least once is at most its multiple. */
  lemma MultipleAtLeastOnce(n: nat, c: real)
    requires n >= 1 && c >= 0.0
    ensures c <= Multiple(n, c)
  {
    MultipleNonNegative(n - 1, c);
  }

  lemma {:induction false} MultipleAdd(a: nat, b: nat, c: real)
    ensures Multiple(a + b, c) == Multiple(a, c) + Multiple(b, c)
  {
    if b > 0 {
      MultipleAdd(a, b - 1, c);
    }
  }

  /** `(a * b) * c` is `a * (b * c)`. */
  lemma {:induction false} MultipleOfProduct(a: nat, b: nat, c: real)
    ensures Multiple(a * b, c) == Multiple(a, Multiple(b, c))
  {
    if a > 0 {
      assert a * b == (a - 1) * b + b;
      MultipleAdd((a - 1) * b, b, c);
      MultipleOfProduct(a - 1, b, c);
    }
  }
}
