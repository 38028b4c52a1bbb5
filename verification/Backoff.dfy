/** Retry backoff for failed deployments: capped exponential with full jitter, in 64-bit signed
    nanoseconds whose multiplication wraps around. */
module Backoff {
  import opened Common

  const MAX64 := 0x7fff_ffff_ffff_ffff
  const MIN64 := -MAX64 - 1
  const SECOND := 1_000_000_000

  /** The value a 64-bit signed result keeps. */
  function Wrap64(x: int): (r: int)
    ensures MIN64 <= r <= MAX64
    ensures MIN64 <= x <= MAX64 ==> r == x
  {
    (x - MIN64) % 0x1_0000_0000_0000_0000 + MIN64
  }

  datatype Policy = Policy(baseDelay: int, maxDelay: int, maxAttempts: int)

  predicate Representable(p: Policy) {
    MIN64 <= p.baseDelay <= MAX64 && MIN64 <= p.maxDelay <= MAX64
  }

  const DEFAULT := Policy(2 * SECOND, 300 * SECOND, 8)

  function Normalize(p: Policy): (r: Policy)
    ensures r.baseDelay == if p.baseDelay > 0 then p.baseDelay else 2_000_000_000
    ensures r.maxDelay == if p.maxDelay > 0 then p.maxDelay else 300_000_000_000
    ensures r.maxAttempts == if p.maxAttempts > 0 then p.maxAttempts else 8
    ensures Representable(p) ==> Representable(r)
  {
    Policy(if p.baseDelay <= 0 then DEFAULT.baseDelay else p.baseDelay,
           if p.maxDelay <= 0 then DEFAULT.maxDelay else p.maxDelay,
           if p.maxAttempts <= 0 then DEFAULT.maxAttempts else p.maxAttempts)
  }

  function Pow2(n: nat): int {
    if n == 0 then 1 else 2 * Pow2(n - 1)
  }

  function Min(a: int, b: int): int { if a < b then a else b }

  /** The intended cap, over mathematical integers: min(MaxDelay, BaseDelay * 2^(attempt - 1)). */
  function Bound(p: Policy, attempt: int): int {
    var q := Normalize(p);
    Min(q.maxDelay, q.baseDelay * Pow2(if attempt < 1 then 0 else attempt - 1))
  }

  /** A doubling that does not fit shows up as negative, never as a plausible positive value. */
  lemma {:induction false} OverflowIsCaught(backoff: int)
    requires 0 < backoff <= MAX64
    ensures if 2 * backoff <= MAX64 then Wrap64(2 * backoff) == 2 * backoff else Wrap64(2 * backoff) < 0
  {
    if 2 * backoff > MAX64 {
      assert 2 * backoff - MIN64 == (2 * backoff - MIN64 - 0x1_0000_0000_0000_0000) + 0x1_0000_0000_0000_0000;
      assert 0 <= 2 * backoff - MIN64 - 0x1_0000_0000_0000_0000 < 0x1_0000_0000_0000_0000;
    }
  }

  /** base doubled n times. */
  function Doubled(base: int, n: nat): int {
    if n == 0 then base else 2 * Doubled(base, n - 1)
  }

  lemma {:induction false} TwiceProduct(base: int, p: int)
    ensures base * (2 * p) == 2 * (base * p)
  {
  }

  lemma {:induction false} DoubledIsProduct(base: int, n: nat)
    ensures Doubled(base, n) == base * Pow2(n)
  {
    if n > 0 {
      DoubledIsProduct(base, n - 1);
      TwiceProduct(base, Pow2(n - 1));
    }
  }

  lemma {:induction false} DoubledGrows(base: int, i: nat, j: nat)
    requires base > 0 && i <= j
    ensures 0 < Doubled(base, i) <= Doubled(base, j)
    decreases j
  {
    if i < j {
      DoubledGrows(base, i, j - 1);
    } else if j > 0 {
      DoubledGrows(base, j - 1, j - 1);
    }
  }

  lemma {:induction false} PowGrows(base: int, i: nat, j: nat)
    requires base > 0 && i <= j
    ensures 0 < base * Pow2(i) <= base * Pow2(j)
  {
    DoubledIsProduct(base, i);
    DoubledIsProduct(base, j);
    DoubledGrows(base, i, j);
  }

  /** The bound never shrinks as attempts go on, and never exceeds MaxDelay. */
  lemma {:induction false} BoundGrows(p: Policy, attempt: int, later: int)
    requires attempt <= later
    ensures 0 < Bound(p, attempt) <= Bound(p, later) <= Normalize(p).maxDelay
  {
    var i, j := if attempt < 1 then 0 else attempt - 1, if later < 1 then 0 else later - 1;
    PowGrows(Normalize(p).baseDelay, i, j);
  }

  /** The doubling loop on wrapping integers computes the mathematical bound, for every attempt. */
  method JitterBound(p: Policy, attempt: int) returns (backoff: int)
    requires Representable(p)
    ensures backoff == Bound(p, attempt)
  {
    var q := Normalize(p);
    var n := if attempt < 1 then 1 else attempt;
    var cap, base := q.maxDelay, q.baseDelay;
    backoff := base;
    var i := 1;
    while i < n && backoff < cap
      invariant 1 <= i <= n
      invariant 0 < backoff <= MAX64 && backoff == base * Pow2(i - 1)
    {
      OverflowIsCaught(backoff);
      TwiceProduct(base, Pow2(i - 1));
      backoff := Wrap64(backoff * 2);
      if backoff <= 0 {
        PowGrows(base, i, n - 1);
        backoff := cap;
        return;
      }
      i := i + 1;
    }
    PowGrows(base, i - 1, n - 1);
    if backoff > cap {
      backoff := cap;
    }
  }

  /** NextDelay draws uniformly from [0, bound]. The draw takes bound + 1 as an exclusive limit and
      panics on a limit that is not positive; that is None here, and happens exactly when the bound is
      the largest 64-bit value, so never with a MaxDelay below it. */
  method NextDelay(p: Policy, attempt: int) returns (delay: Option<int>)
    requires Representable(p)
    ensures delay.None? <==> Bound(p, attempt) == MAX64
    ensures delay.Some? ==> 0 <= delay.value <= Bound(p, attempt)
    ensures Normalize(p).maxDelay < MAX64 ==> delay.Some?
  {
    var backoff := JitterBound(p, attempt);
    BoundGrows(p, attempt, attempt);
    var limit := Wrap64(backoff + 1);
    if backoff == MAX64 {
      assert limit == MIN64;
    }
    if limit <= 0 {
      return None;
    }
    var drawn :| 0 <= drawn < limit;
    delay := Some(drawn);
  }

  /** When the panic is reachable: MaxDelay is the largest value and the doubling has come that far. */
  lemma {:induction false} PanicExactly(p: Policy, attempt: int)
    requires Representable(p)
    ensures Bound(p, attempt) == MAX64 <==>
            p.maxDelay == MAX64
            && Normalize(p).baseDelay * Pow2(if attempt < 1 then 0 else attempt - 1) >= MAX64
  {
  }

  /** Such a policy: both delays the largest value, on the first attempt. */
  lemma {:induction false} PanicReachable()
    ensures Representable(Policy(MAX64, MAX64, 1)) && Bound(Policy(MAX64, MAX64, 1), 1) == MAX64
  {
  }

  datatype Failure = Placement | Other

  datatype Decision = NoFailure | NotRetryable | Exhausted | Retry(delay: Option<int>)

  /** Only placement failures are retried, and only while attempts remain. */
  method Decide(p: Policy, failure: Option<Failure>, attempt: int) returns (d: Decision)
    requires Representable(p)
    ensures d.Retry? <==> failure == Some(Placement) && attempt < Normalize(p).maxAttempts
    ensures d.Exhausted? <==> failure == Some(Placement) && attempt >= Normalize(p).maxAttempts
    ensures d.NoFailure? <==> failure.None?
    ensures d.Retry? && d.delay.Some? ==> 0 <= d.delay.value <= Bound(p, attempt)
  {
    if failure.None? {
      return NoFailure;
    }
    var q := Normalize(p);
    if failure.value != Placement {
      return NotRetryable;
    }
    if attempt >= q.maxAttempts {
      return Exhausted;
    }
    var delay := NextDelay(q, attempt);
    d := Retry(delay);
  }
}
