/** The times given to seeded invocations (cmd/bb_seed/main.go, seedBazelInvocations), in 64-bit
    nanoseconds: step = timeSpan / n and time i = from + i * step. */
module SeedTimes {
  const TWO_63: int := 0x8000_0000_0000_0000
  const TWO_64: int := 0x1_0000_0000_0000_0000

  predicate IsInt64(x: int) { -TWO_63 <= x < TWO_63 }

  /** The value of a 64-bit product. */
  function Wrap64(x: int): int {
    (x + TWO_63) % TWO_64 - TWO_63
  }

  /** Division that truncates toward zero. */
  function TruncDiv(a: int, b: int): int
    requires b > 0
  {
    if a >= 0 then a / b else -((-a) / b)
  }

  function SeedTime(from: int, timeSpan: int, n: int, i: int): int
    requires n > 0
  {
    from + Wrap64(i * TruncDiv(timeSpan, n))
  }

  /** The loop over the invocations. */
  method SeedTimesOf(from: int, timeSpan: int, n: int) returns (times: seq<int>)
    requires n >= 0
    ensures |times| == n && forall i :: 0 <= i < n ==> times[i] == SeedTime(from, timeSpan, n, i)
  {
    times := [];
    if n == 0 { return; }
    var step := TruncDiv(timeSpan, n);
    for i := 0 to n
      invariant |times| == i && forall j :: 0 <= j < i ==> times[j] == SeedTime(from, timeSpan, n, j)
    {
      times := times + [from + Wrap64(i * step)];
    }
  }

  /** The step is the span divided by the number of invocations, cut toward zero, whatever the sign. */
  lemma StepExact(timeSpan: int, n: int)
    requires n > 0
    ensures
      var step := TruncDiv(timeSpan, n);
      if timeSpan >= 0 then 0 <= n * step <= timeSpan < n * step + n else n * step - n < timeSpan <= n * step <= 0
  {
    var size := if timeSpan >= 0 then timeSpan else -timeSpan;
    DivFacts(size, n);
    assert size < n * (size / n) + n;
    if timeSpan < 0 {
      assert n * TruncDiv(timeSpan, n) == -(n * (size / n));
    }
  }

  lemma DivFacts(a: nat, n: int)
    requires n > 0
    ensures 0 <= n * (a / n) <= a && (a / n == 0 <==> a < n)
  {
  }

  /** a * q lies between 0 and n * q, and is strictly below a positive n * q. */
  lemma Scaled(i: int, n: int, q: nat)
    requires 0 <= i < n
    ensures 0 <= i * q <= n * q && (q > 0 ==> i * q < n * q)
  {
    var rest := n - i;
    assert n * q == i * q + rest * q;
    NonNegative(i, q);
    NonNegative(rest, q);
    if q > 0 {
      assert rest * q >= q by { NonNegative(rest - 1, q); }
    }
  }

  lemma NonNegative(a: nat, b: nat)
    ensures a * b >= 0
  {
  }

  /** The step's size, for spans of either sign, and the exact product: it never leaves the span,
      so the 64-bit multiplication never overflows. */
  lemma NoOverflow(timeSpan: int, n: int, i: int)
    requires IsInt64(timeSpan) && 0 <= i < n
    ensures Wrap64(i * TruncDiv(timeSpan, n)) == i * TruncDiv(timeSpan, n)
    ensures timeSpan > 0 ==> 0 <= i * TruncDiv(timeSpan, n) < timeSpan
    ensures timeSpan <= 0 ==> timeSpan <= i * TruncDiv(timeSpan, n) <= 0
  {
    var size := if timeSpan >= 0 then timeSpan else -timeSpan;
    var q := size / n;
    DivFacts(size, n);
    Scaled(i, n, q);
    if timeSpan < 0 {
      assert i * TruncDiv(timeSpan, n) == -(i * q);
    }
  }

  /** The loop's times: invocation i gets the start plus i whole steps. */
  lemma TimeExact(from: int, timeSpan: int, n: int, i: int)
    requires IsInt64(timeSpan) && 0 <= i < n
    ensures SeedTime(from, timeSpan, n, i) == from + i * TruncDiv(timeSpan, n)
  {
    NoOverflow(timeSpan, n, i);
  }

  /** All times lie in the half-open interval exactly when the span is positive. */
  lemma InSpanExact(from: int, timeSpan: int, n: int)
    requires IsInt64(timeSpan) && n > 0
    ensures (forall i :: 0 <= i < n ==> from <= SeedTime(from, timeSpan, n, i) < from + timeSpan) <==> timeSpan > 0
  {
    forall i | 0 <= i < n && timeSpan > 0
      ensures from <= SeedTime(from, timeSpan, n, i) < from + timeSpan
    {
      NoOverflow(timeSpan, n, i);
    }
    NoOverflow(timeSpan, n, 0);
    assert timeSpan <= 0 ==> !(from <= SeedTime(from, timeSpan, n, 0) < from + timeSpan);
  }

  /** Spans that fail occur: the empty span has no room for its one time, and two times over a
      negative span of two nanoseconds go back. */
  lemma EmptyAndNegativeSpan(from: int)
    ensures !(from <= SeedTime(from, 0, 1, 0) < from + 0)
    ensures SeedTime(from, -2, 2, 1) < SeedTime(from, -2, 2, 0) == from
  {
  }

  /** Consecutive times are one step apart. */
  lemma Spacing(from: int, timeSpan: int, n: int, i: int)
    requires IsInt64(timeSpan) && 0 <= i && i + 1 < n
    ensures SeedTime(from, timeSpan, n, i + 1) - SeedTime(from, timeSpan, n, i) == TruncDiv(timeSpan, n)
  {
    NoOverflow(timeSpan, n, i);
    NoOverflow(timeSpan, n, i + 1);
    assert (i + 1) * TruncDiv(timeSpan, n) == i * TruncDiv(timeSpan, n) + TruncDiv(timeSpan, n);
  }

  ghost predicate NonDecreasing(from: int, timeSpan: int, n: int)
    requires n > 0
  {
    forall i, j :: 0 <= i <= j < n ==> SeedTime(from, timeSpan, n, i) <= SeedTime(from, timeSpan, n, j)
  }

  lemma {:induction false} Ascends(from: int, timeSpan: int, n: int, i: int, j: int)
    requires IsInt64(timeSpan) && 0 <= i <= j < n && TruncDiv(timeSpan, n) >= 0
    ensures SeedTime(from, timeSpan, n, i) <= SeedTime(from, timeSpan, n, j)
    decreases j
  {
    if i < j {
      Ascends(from, timeSpan, n, i, j - 1);
      Spacing(from, timeSpan, n, j - 1);
    }
  }

  /** The times never decrease exactly when the span is not negative by a whole nanosecond per
      invocation, or there is one invocation only. */
  lemma NonDecreasingExact(from: int, timeSpan: int, n: int)
    requires IsInt64(timeSpan) && n > 0
    ensures NonDecreasing(from, timeSpan, n) <==> timeSpan > -n || n == 1
  {
    StepSign(timeSpan, n);
    if timeSpan > -n {
      forall i, j | 0 <= i <= j < n
        ensures SeedTime(from, timeSpan, n, i) <= SeedTime(from, timeSpan, n, j)
      {
        Ascends(from, timeSpan, n, i, j);
      }
    } else if n > 1 {
      Descends(from, timeSpan, n);
    }
  }

  lemma StepSign(timeSpan: int, n: int)
    requires n > 0
    ensures TruncDiv(timeSpan, n) >= 0 <==> timeSpan > -n
  {
    if timeSpan < 0 {
      var q := (-timeSpan) / n;
      DivFacts(-timeSpan, n);
      assert q >= 0;
    } else {
      DivFacts(timeSpan, n);
    }
  }

  lemma Descends(from: int, timeSpan: int, n: int)
    requires IsInt64(timeSpan) && n > 1 && TruncDiv(timeSpan, n) < 0
    ensures SeedTime(from, timeSpan, n, 0) > SeedTime(from, timeSpan, n, 1)
  {
    Spacing(from, timeSpan, n, 0);
  }
}
