/** Shared vocabulary of the trace post-processors: results with a fatal
    error path, Python list indexing, and sums over small histograms. */
module Common {

  /** The node id column of every trace. */
  type NodeId = int

  datatype Option<T> = None | Some(value: T)

  /** The outcome of a processing step: a value, or the fatal condition that
      makes the script stop (an `exit`, a failed `assert`, or an exception
      such as a missing dictionary key or an index out of range). */
  datatype Result<T, E> = Ok(value: T) | Err(error: E) {
    predicate IsFailure() { Err? }

    function PropagateFailure<U>(): Result<U, E>
      requires Err?
    {
      Err(error)
    }

    function Extract(): T
      requires Ok?
    {
      value
    }
  }

  /** Python's `xs[i]` on a list of length `len`: negative indices count from
      the end; anything outside `-len .. len-1` raises IndexError (None). */
  function PyIndex(len: nat, i: int): (r: Option<nat>)
    ensures r.Some? <==> -(len as int) <= i < len
    ensures r.Some? ==> r.value < len && (r.value == i || r.value == i + len)
    ensures r.Some? && i >= 0 ==> r.value == i
  {
    if 0 <= i < len then Some(i)
    else if -(len as int) <= i < 0 then Some(i + len)
    else None
  }

  /** Python's `xs[i] += 1` on a histogram, or None on IndexError. */
  function Bump(h: seq<int>, i: int): (r: Option<seq<int>>)
    ensures r.Some? <==> -|h| <= i < |h|
    ensures r.Some? ==> |r.value| == |h|
    ensures r.Some? ==> Sum(r.value) == Sum(h) + 1
  {
    match PyIndex(|h|, i)
    case None => None
    case Some(j) =>
      SumUpdate(h, j, h[j] + 1);
      Some(h[j := h[j] + 1])
  }

  function Sum(h: seq<int>): int
  {
    if |h| == 0 then 0 else Sum(h[..|h| - 1]) + h[|h| - 1]
  }

  /** The sum of i * h[i], the "W sum" column of the summary tables. */
  function WeightedSum(h: seq<int>): int
  {
    if |h| == 0 then 0 else WeightedSum(h[..|h| - 1]) + (|h| - 1) * h[|h| - 1]
  }

  lemma {:induction false} SumUpdate(h: seq<int>, j: nat, v: int)
    requires j < |h|
    ensures Sum(h[j := v]) == Sum(h) - h[j] + v
  {
    var n := |h| - 1;
    if j < n {
      assert h[j := v][..n] == h[..n][j := v];
      SumUpdate(h[..n], j, v);
    } else {
      assert h[j := v][..n] == h[..n];
    }
  }

  lemma {:induction false} WeightedSumUpdate(h: seq<int>, j: nat, v: int)
    requires j < |h|
    ensures WeightedSum(h[j := v]) == WeightedSum(h) + j * (v - h[j])
  {
    var n := |h| - 1;
    if j < n {
      assert h[j := v][..n] == h[..n][j := v];
      WeightedSumUpdate(h[..n], j, v);
    } else {
      assert h[j := v][..n] == h[..n];
    }
  }

  /** Incrementing bucket i moves the weighted sum by i. */
  lemma BumpWeighted(h: seq<int>, i: nat)
    requires i < |h|
    ensures Bump(h, i).Some?
    ensures WeightedSum(Bump(h, i).value) == WeightedSum(h) + i
  {
    WeightedSumUpdate(h, i, h[i] + 1);
  }

  lemma {:induction false} SumZeros(n: nat)
    ensures Sum(Zeros(n)) == 0 && WeightedSum(Zeros(n)) == 0
  {
    if n > 0 {
      assert Zeros(n)[..n - 1] == Zeros(n - 1);
      SumZeros(n - 1);
    }
  }

  function Zeros(n: nat): (r: seq<int>)
    ensures |r| == n && forall i :: 0 <= i < n ==> r[i] == 0
  {
    seq(n, _ => 0)
  }

  /** Number of occurrences of x in s (Python's `s.count(x)`). */
  function Count<T(==)>(s: seq<T>, x: T): (r: nat)
    ensures r <= |s|
    ensures r == 0 <==> x !in s
  {
    if |s| == 0 then 0 else Count(s[..|s| - 1], x) + (if s[|s| - 1] == x then 1 else 0)
  }

  lemma {:induction false} CountAppend<T>(s: seq<T>, t: seq<T>, x: T)
    ensures Count(s + t, x) == Count(s, x) + Count(t, x)
  {
    if |t| == 0 {
      assert s + t == s;
    } else {
      var n := |t| - 1;
      assert (s + t)[..|s + t| - 1] == s + t[..n];
      CountAppend(s, t[..n], x);
    }
  }

  /** No element occurs twice. */
  predicate Distinct<T(==)>(s: seq<T>)
  {
    forall i, j :: 0 <= i < j < |s| ==> s[i] != s[j]
  }

  /** `s` with every occurrence of x removed (how a Python dict drops a key
      from its remembered insertion order on `del`). */
  function Without<T(==,!new)>(s: seq<T>, x: T): (r: seq<T>)
    ensures forall y :: y in r <==> y in s && y != x
    ensures Distinct(s) ==> Distinct(r)
    ensures x !in s ==> r == s
  {
    if |s| == 0 then []
    else if s[0] == x then Without(s[1..], x)
    else
      var rest := Without(s[1..], x);
      assert Distinct(s) ==> Distinct(s[1..]) && s[0] !in s[1..];
      assert Distinct(s) ==> s[0] !in rest;
      [s[0]] + rest
  }
}
