/** Shared vocabulary of the exam engine: optional values, results carrying an
    HTTP status, JavaScript's rounding on integers, and sums over sequences. */
module Common {

  /** A value that may be absent (`undefined`/`null` in the server). */
  datatype Option<T> = None | Some(value: T) {
    /** `x || d` for a value that is present or not. */
    function GetOr(default: T): T {
      if Some? then value else default
    }
  }

  /** Identifiers of stored documents (Mongo ObjectIds); only equality matters. */
  type Id = nat

  /** Instants are integer milliseconds since the epoch. */
  type Millis = int

  /** An error answered to the client: its HTTP status and a short reason. */
  datatype Failure = Failure(status: int, reason: string)

  /** A handler's outcome: a success payload or an error answer. */
  datatype Result<T> = Ok(value: T) | Err(failure: Failure)

  function Max(a: int, b: int): (m: int)
    ensures m >= a && m >= b && (m == a || m == b)
  {
    if a >= b then a else b
  }

  function Min(a: int, b: int): (m: int)
    ensures m <= a && m <= b && (m == a || m == b)
  {
    if a <= b then a else b
  }

  /** `Math.round(n / d)` for a positive divisor: the nearest integer, halves
      rounded towards positive infinity, computed without floating point. */
  function RoundDiv(n: int, d: int): (r: int)
    requires d > 0
    ensures 2 * d * r <= 2 * n + d < 2 * d * r + 2 * d
  {
    var q := (2 * n + d) / (2 * d);
    assert 2 * n + d == 2 * d * q + (2 * n + d) % (2 * d);
    q
  }

  /** A rounded ratio of a non-negative numerator is non-negative. */
  lemma RoundDivNonNegative(n: int, d: int)
    requires d > 0 && n >= 0
    ensures RoundDiv(n, d) >= 0
  {
    var r := RoundDiv(n, d);
    assert 2 * d * (r + 1) > 0;
    PositiveFactor(2 * d, r + 1);
  }

  /** Rounding never exceeds the bound when the numerator does not exceed the divisor times `b`. */
  lemma RoundDivAtMost(n: int, d: int, b: int)
    requires d > 0 && n <= b * d
    ensures RoundDiv(n, d) <= b
  {
    var r := RoundDiv(n, d);
    assert 2 * d * r < 2 * d * (b + 1);
    assert 2 * d * (b + 1 - r) > 0;
    PositiveFactor(2 * d, b + 1 - r);
  }

  /** Rounding never falls below the bound when the numerator is at least the divisor times `b`. */
  lemma RoundDivAtLeast(n: int, d: int, b: int)
    requires d > 0 && b * d <= n
    ensures b <= RoundDiv(n, d)
  {
    var r := RoundDiv(n, d);
    assert 2 * d * b < 2 * d * r + d;
    assert d * (2 * r - 2 * b + 1) > 0;
    PositiveFactor(d, 2 * r - 2 * b + 1);
  }

  lemma PositiveFactor(a: int, x: int)
    requires a > 0 && a * x > 0
    ensures x > 0
  {
    assert x <= 0 ==> a * x <= 0;
  }

  function Sum(s: seq<int>): (t: int)
  {
    if s == [] then 0 else Sum(s[..|s| - 1]) + s[|s| - 1]
  }

  lemma {:induction false} SumAppend(a: seq<int>, b: seq<int>)
    ensures Sum(a + b) == Sum(a) + Sum(b)
    decreases |b|
  {
    if b == [] {
      assert a + b == a;
    } else {
      assert (a + b)[..|a + b| - 1] == a + b[..|b| - 1];
      SumAppend(a, b[..|b| - 1]);
    }
  }

  lemma {:induction false} SumNonNegative(s: seq<int>)
    requires forall i :: 0 <= i < |s| ==> s[i] >= 0
    ensures Sum(s) >= 0
    decreases |s|
  {
    if s != [] {
      SumNonNegative(s[..|s| - 1]);
    }
  }

  /** The sum of values that are each at most `b` is at most `|s| * b`. */
  lemma {:induction false} SumBounded(s: seq<int>, b: int)
    requires forall i :: 0 <= i < |s| ==> 0 <= s[i] <= b
    ensures 0 <= Sum(s) <= |s| * b
    decreases |s|
  {
    if s != [] {
      SumBounded(s[..|s| - 1], b);
    }
  }
}
