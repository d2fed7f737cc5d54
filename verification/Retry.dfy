/** Exponential backoff in 64-bit arithmetic and the bounded retry loop. */
module Retry {
  import opened Prelude

  /** x doubled k times. */
  function Doubled(x: int, k: nat): int {
    if k == 0 then x else 2 * Doubled(x, k - 1)
  }

  lemma {:induction false} DoubledIsPower(x: int, k: nat)
    ensures Doubled(x, k) == x * Pow2(k)
  {
    if k > 0 {
      DoubledIsPower(x, k - 1);
      assert x * Pow2(k) == 2 * (x * Pow2(k - 1));
    }
  }

  lemma {:induction false} DoubledMonotone(x: nat, i: nat, j: nat)
    requires i <= j
    ensures Doubled(x, i) <= Doubled(x, j)
    ensures x <= Doubled(x, i)
  {
    if i < j {
      DoubledMonotone(x, i, j - 1);
    } else if i > 0 {
      DoubledMonotone(x, i - 1, i - 1);
    }
  }

  /** The unbounded cap the backoff is documented to have. */
  function Ceiling(attempt: nat, initial: int, maxDelay: int): int {
    Min(Doubled(initial, attempt), maxDelay)
  }

  /** The value a draw from [0, delay) gives, raised to the initial delay. */
  function Jittered(delay: int, initial: int, draw: nat): int {
    if delay > 0 && draw % delay >= initial then draw % delay else initial
  }

  /** What Backoff returns, in unbounded arithmetic; attempt 0 is not capped. */
  function BackoffValue(attempt: nat, initial: int, maxDelay: int, draw: nat): int {
    Jittered(if attempt == 0 then initial else Ceiling(attempt, initial, maxDelay), initial, draw)
  }

  /** Doubling a positive 64-bit number gives a non-positive one exactly when it overflows. */
  lemma DoublingOverflows(x: int)
    requires 0 < x && IsInt64(x)
    ensures Wrap64(2 * x) <= 0 <==> !IsInt64(2 * x)
    ensures Wrap64(2 * x) > 0 ==> Wrap64(2 * x) == 2 * x
  {
  }

  /** The delay before retry number attempt; draw stands for the random number. */
  method Backoff(attempt: int, initial: int, maxDelay: int, draw: nat) returns (d: int)
    requires IsInt64(attempt) && IsInt64(initial) && IsInt64(maxDelay)
    ensures initial > 0 ==> d == BackoffValue(if attempt < 0 then 0 else attempt, initial, maxDelay, draw)
    ensures d >= initial
    ensures 0 < initial <= maxDelay ==> d <= Ceiling(if attempt < 0 then 0 else attempt, initial, maxDelay)
    ensures initial <= 0 && (attempt <= 0 || (maxDelay <= 0 && initial >= -0x4000_0000_0000_0000)) ==> d == initial
    ensures -0x4000_0000_0000_0000 <= initial <= 0 && attempt > 0 && maxDelay > 0 ==> d == draw % maxDelay
  {
    var n := if attempt < 0 then 0 else attempt;
    var delay := initial;
    for i := 0 to n
      invariant IsInt64(delay)
      invariant initial > 0 ==> delay == Doubled(initial, i) && (i > 0 ==> delay < maxDelay) && delay > 0
      invariant -0x4000_0000_0000_0000 <= initial <= 0 ==> i == 0
      invariant i == 0 ==> delay == initial
    {
      if initial > 0 {
        DoublingOverflows(delay);
        assert Doubled(initial, i + 1) == 2 * delay;
        DoubledMonotone(initial, i + 1, n);
      }
      delay := Wrap64(delay * 2);
      if delay <= 0 || delay >= maxDelay {
        delay := maxDelay;
        break;
      }
    }
    if initial > 0 { DoubledMonotone(initial, 0, n); }
    if delay <= 0 {
      return initial;
    }
    var jittered := draw % delay;
    return if jittered < initial then initial else jittered;
  }

  /** The documented range [initial, min(initial*2^attempt, maxDelay)] holds exactly when the
      initial delay does not pass the cap. */
  lemma RangeExactly(attempt: nat, initial: int, maxDelay: int)
    requires initial > 0
    ensures (forall draw: nat ::
               initial <= BackoffValue(attempt, initial, maxDelay, draw) <= Ceiling(attempt, initial, maxDelay))
            <==> initial <= maxDelay
  {
    DoubledMonotone(initial, 0, attempt);
    if initial <= maxDelay {
      forall draw: nat
        ensures initial <= BackoffValue(attempt, initial, maxDelay, draw) <= Ceiling(attempt, initial, maxDelay)
      {
      }
    } else {
      assert BackoffValue(attempt, initial, maxDelay, 0) >= initial;
    }
  }

  /** Every delay of the documented range is reached: a draw below min(initial * 2^attempt, maxDelay)
      is the delay itself, or the initial delay when it is smaller, and larger draws wrap around. */
  lemma RangeIsReached(attempt: nat, initial: int, maxDelay: int, draw: nat)
    requires 0 < initial <= maxDelay
    ensures var top := Min(initial * Pow2(attempt), maxDelay);
            && top > 0
            && (initial <= draw < top ==> BackoffValue(attempt, initial, maxDelay, draw) == draw)
            && (draw < initial ==> BackoffValue(attempt, initial, maxDelay, draw) == initial)
            && BackoffValue(attempt, initial, maxDelay, draw) == BackoffValue(attempt, initial, maxDelay, draw % top)
            && (attempt == 0 ==> BackoffValue(attempt, initial, maxDelay, draw) == initial)
  {
    DoubledIsPower(initial, attempt);
    DoubledMonotone(initial, 0, attempt);
    var top := Min(initial * Pow2(attempt), maxDelay);
    assert top == Ceiling(attempt, initial, maxDelay);
    RemainderOfRemainder(draw, top);
  }

  lemma RemainderOfRemainder(x: nat, n: int)
    requires n > 0
    ensures x % n % n == x % n && 0 <= x % n < n && (x < n ==> x % n == x)
  {
  }

  function Sum(xs: seq<int>): int {
    if xs == [] then 0 else Sum(xs[..|xs| - 1]) + xs[|xs| - 1]
  }

  /** Total sleep after k failures: at most the geometric sum, and at most k caps. */
  lemma {:induction false} SleepBound(sleeps: seq<int>, initial: int, maxDelay: int)
    requires 0 < initial <= maxDelay
    requires forall k | 0 <= k < |sleeps| :: sleeps[k] <= Ceiling(k, initial, maxDelay)
    ensures Sum(sleeps) <= Doubled(initial, |sleeps|) - initial
    ensures Sum(sleeps) <= |sleeps| * maxDelay
  {
    if sleeps != [] {
      var n := |sleeps| - 1;
      SleepBound(sleeps[..n], initial, maxDelay);
      assert (n + 1) * maxDelay == n * maxDelay + maxDelay;
    }
  }

  /** The most a run of retries may sleep. */
  function SleepCap(initial: int, maxDelay: int, maxRetries: nat): int {
    Min(initial * (Pow2(maxRetries) - 1), maxRetries * maxDelay)
  }

  /** The bound in closed form, and what it comes to for any number of retries allowed. */
  lemma TotalSleepBound(sleeps: seq<int>, initial: int, maxDelay: int, maxRetries: nat)
    requires 0 < initial <= maxDelay && |sleeps| <= maxRetries
    requires forall k | 0 <= k < |sleeps| :: sleeps[k] <= Ceiling(k, initial, maxDelay)
    ensures Sum(sleeps) <= SleepCap(initial, maxDelay, maxRetries)
  {
    hide Sum, Ceiling, Doubled, Pow2;
    SleepBound(sleeps, initial, maxDelay);
    DoubledMonotone(initial, |sleeps|, maxRetries);
    DoubledIsPower(initial, maxRetries);
    var p := Pow2(maxRetries);
    assert initial * (p - 1) == initial * p - initial;
    MulMonotone(|sleeps|, maxRetries, maxDelay);
  }

  /** The number of calls made when call k ends with fn(k) and at most n are allowed. */
  function CallsFrom<E>(fn: nat -> Option<E>, k: nat, n: nat): (calls: nat)
    requires k <= n
    ensures calls <= n - k
    decreases n - k
  {
    if k == n then 0
    else if fn(k).None? then 1
    else 1 + CallsFrom(fn, k + 1, n)
  }

  lemma CallsUnfold<E>(fn: nat -> Option<E>, k: nat, n: nat)
    requires k < n
    ensures CallsFrom(fn, k, n) == if fn(k).None? then 1 else 1 + CallsFrom(fn, k + 1, n)
    ensures CallsFrom(fn, n, n) == 0
  {
  }

  lemma CallsDone<E>(fn: nat -> Option<E>, n: nat)
    ensures CallsFrom(fn, n, n) == 0
  {
  }

  /** How many attempts a retry limit allows; the sum wraps like the source's. */
  function Allowed(maxRetries: int): nat {
    var n := Wrap64(maxRetries + 1);
    if n < 0 then 0 else n
  }

  function Calls<E>(maxRetries: int, fn: nat -> Option<E>): nat {
    CallsFrom(fn, 0, Allowed(maxRetries))
  }

  /** Calls stops at the first success, or else uses up every attempt allowed. */
  lemma {:induction false} CallsStopAtSuccess<E>(fn: nat -> Option<E>, k: nat, n: nat)
    requires k < n
    ensures var c := CallsFrom(fn, k, n);
            && 1 <= c
            && (forall i | k <= i < k + c - 1 :: fn(i).Some?)
            && (fn(k + c - 1).None? || k + c == n)
    decreases n - k
  {
    if fn(k).Some? && k + 1 < n {
      CallsStopAtSuccess(fn, k + 1, n);
    }
  }

  /** Calls fn until it succeeds or the retries are used up, sleeping between calls. The k-th
      call's result is fn(k) and the k-th random number is draws(k). */
  method Do<E>(maxRetries: int, initial: int, maxDelay: int, fn: nat -> Option<E>, draws: nat -> nat)
      returns (err: Option<E>, calls: nat, sleeps: seq<int>)
    requires IsInt64(maxRetries) && IsInt64(initial) && IsInt64(maxDelay)
    ensures calls == Calls(maxRetries, fn)
    ensures calls == 0 <==> maxRetries < 0 || maxRetries == 0x7fff_ffff_ffff_ffff
    ensures err == if calls == 0 then None else fn(calls - 1)
    ensures calls > 0 ==> calls <= maxRetries + 1 && |sleeps| == calls - 1
    ensures err.Some? ==> calls == maxRetries + 1
    ensures forall k | 0 <= k < calls - 1 :: fn(k).Some?
    ensures initial > 0 ==> forall k | 0 <= k < |sleeps| :: sleeps[k] == BackoffValue(k, initial, maxDelay, draws(k))
    ensures 0 < initial <= maxDelay && maxRetries >= 0 ==>
              Sum(sleeps) <= SleepCap(initial, maxDelay, maxRetries)
    ensures calls == 0 ==> sleeps == []
  {
    hide BackoffValue, Ceiling, SleepCap, Sum, CallsFrom;
    err, calls, sleeps := None, 0, [];
    var n := Wrap64(maxRetries + 1);
    var attempt := 0;
    while attempt < n
      invariant 0 <= attempt && (if n > 0 then attempt <= n else attempt == 0) && calls == attempt
      invariant attempt > 0 ==> err == fn(attempt - 1)
      invariant attempt == 0 ==> err == None
      invariant forall k | 0 <= k < attempt :: fn(k).Some?
      invariant n > 0 ==> n == maxRetries + 1 && CallsFrom(fn, 0, n) == attempt + CallsFrom(fn, attempt, n)
      invariant |sleeps| == if n > 0 && attempt == n then n - 1 else attempt
      invariant forall k | 0 <= k < |sleeps| :: 0 < initial <= maxDelay ==> sleeps[k] <= Ceiling(k, initial, maxDelay)
      invariant forall k | 0 <= k < |sleeps| :: initial > 0 ==>
                sleeps[k] == BackoffValue(k, initial, maxDelay, draws(k))
      decreases n - attempt
    {
      CallsUnfold(fn, attempt, n);
      err := fn(attempt);
      calls := calls + 1;
      if err.None? {
        break;
      }
      if attempt < maxRetries {
        var d := Backoff(attempt, initial, maxDelay, draws(attempt));
        sleeps := sleeps + [d];
      }
      attempt := attempt + 1;
    }
    if n > 0 { CallsDone(fn, n); }
    if 0 < initial <= maxDelay && maxRetries >= 0 {
      TotalSleepBound(sleeps, initial, maxDelay, maxRetries);
    }
  }
}
