/** Options, results, rounding and counting shared by the limiter models. */
module Basics {

  datatype Option<+T> = None | Some(value: T) {
    function GetOr(default: T): T {
      match this
      case None => default
      case Some(v) => v
    }
  }

  datatype Result<+T, +E> = Ok(value: T) | Err(error: E)

  function Max(a: int, b: int): int { if a < b then b else a }

  function Min(a: int, b: int): int { if a < b then a else b }

  /** The least integer that is at least x (math.ceil). */
  function Ceil(x: real): (c: int)
    ensures x <= c as real < x + 1.0
  {
    -((-x).Floor)
  }

  /** Conversion of a real to an integer, rounding toward zero. */
  function Truncate(x: real): (n: int)
    ensures x >= 0.0 ==> n as real <= x < n as real + 1.0
    ensures x <= 0.0 ==> x <= n as real < x + 1.0
  {
    if x >= 0.0 then x.Floor else Ceil(x)
  }

  /** Integer division rounding toward zero, as Go's `/` does; b is the divisor. */
  function Quotient(a: int, b: int): int
    requires b > 0
  {
    if a >= 0 then a / b else -((-a) / b)
  }

  /** Non-decreasing timestamps. */
  ghost predicate Sorted(ts: seq<int>) {
    forall i, j :: 0 <= i <= j < |ts| ==> ts[i] <= ts[j]
  }

  /** How many of the decisions s[i..j] admit. */
  function Count(s: seq<bool>, i: nat, j: nat): nat
    requires i <= j <= |s|
  {
    if i == j then 0 else Count(s, i, j - 1) + if s[j - 1] then 1 else 0
  }

  lemma {:induction false} CountSplits(s: seq<bool>, i: nat, m: nat, j: nat)
    requires i <= m <= j <= |s|
    ensures Count(s, i, j) == Count(s, i, m) + Count(s, m, j)
  {
    if m < j {
      CountSplits(s, i, m, j - 1);
    }
  }

  /** How many of the first n arrivals s admits at a moment in [lo, hi]. */
  function AdmittedWithin(ts: seq<int>, s: seq<bool>, n: nat, lo: int, hi: int): nat
    requires |s| == |ts| && n <= |ts|
  {
    if n == 0 then 0
    else AdmittedWithin(ts, s, n - 1, lo, hi) + if s[n - 1] && lo <= ts[n - 1] <= hi then 1 else 0
  }

  /** A wider window over a longer history holds at least as many admissions. */
  lemma {:induction false} WithinGrows(ts: seq<int>, s: seq<bool>, n: nat, m: nat, lo: int, hi: int, lo': int, hi': int)
    requires |s| == |ts| && n <= m <= |ts|
    requires forall k :: 0 <= k < n && lo <= ts[k] <= hi ==> lo' <= ts[k] <= hi'
    ensures AdmittedWithin(ts, s, n, lo, hi) <= AdmittedWithin(ts, s, m, lo', hi')
  {
    if n < m {
      WithinGrows(ts, s, n, m - 1, lo, hi, lo', hi');
    } else if n > 0 {
      WithinGrows(ts, s, n - 1, m - 1, lo, hi, lo', hi');
    }
  }
}
