/**
 * Retry policy of the client (client.go `RetryConfig`, `calculateDelay`,
 * `shouldRetryStatus`).  Durations are nanosecond counts held in a signed
 * 64-bit integer, as Go's `time.Duration` is; `Multiplier` is a float that the
 * source truncates toward zero before multiplying.
 */
module Backoff {

  datatype RetryConfig = RetryConfig(maxRetries: int, initialDelay: int, maxDelay: int, multiplier: real)

  const Millisecond := 1_000_000
  const Second := 1_000_000_000

  /** Three retries, starting at 100ms, capped at 5s, doubling. */
  const DefaultRetryConfig := RetryConfig(3, 100 * Millisecond, 5 * Second, 2.0)

  const Two63: int := 0x8000_0000_0000_0000
  const Two64: int := 0x1_0000_0000_0000_0000

  /** Two's-complement wrap-around into the int64 range. */
  function Wrap64(x: int): (r: int)
    ensures -Two63 <= r < Two63
    ensures (x - r) % Two64 == 0
    ensures -Two63 <= x < Two63 ==> r == x
  {
    (x + Two63) % Two64 - Two63
  }

  function Pow2(n: nat): (r: nat)
    ensures r >= 1
  {
    if n == 0 then 1 else 2 * Pow2(n - 1)
  }

  lemma {:induction false} Pow2Monotone(m: nat, n: nat)
    requires m <= n
    ensures Pow2(m) <= Pow2(n)
  {
    if m < n {
      Pow2Monotone(m, n - 1);
    }
  }

  /** Go's conversion of a float to an integer: truncation toward zero. */
  function Trunc(x: real): (r: int)
    ensures x >= 0.0 ==> 0 <= r && r as real <= x < r as real + 1.0
    ensures x < 0.0 ==> r <= 0 && r as real - 1.0 < x <= r as real
  {
    if x >= 0.0 then x.Floor else -((-x).Floor)
  }

  /** `1 << uint(n)` on an int64: zero once the count reaches 64; a negative count converts to a huge one. */
  function Shl1(n: int): int {
    if n < 0 || n >= 64 then 0 else Wrap64(Pow2(n))
  }

  /** The delay before retry number `attempt`, computed with int64 wrap-around as the source does. */
  function CalculateDelayAsWritten(cfg: RetryConfig, attempt: int): (d: int)
    ensures d <= cfg.maxDelay
  {
    var raw := Wrap64(Wrap64(cfg.initialDelay * Shl1(attempt - 1)) * Trunc(cfg.multiplier));
    if raw > cfg.maxDelay then cfg.maxDelay else raw
  }

  /** The uncapped exponential delay: initial delay times 2^(attempt-1) times the truncated multiplier. */
  function Exponential(cfg: RetryConfig, attempt: nat): int
    requires attempt >= 1
  {
    cfg.initialDelay * Pow2(attempt - 1) * Trunc(cfg.multiplier)
  }

  /** The delay with the cap applied to the exact product, so that no overflow can bypass it. */
  function CalculateDelay(cfg: RetryConfig, attempt: nat): (d: int)
    requires attempt >= 1
    ensures d <= cfg.maxDelay
    ensures d == cfg.maxDelay || d == Exponential(cfg, attempt)
    ensures Exponential(cfg, attempt) <= cfg.maxDelay ==> d == Exponential(cfg, attempt)
  {
    var raw := Exponential(cfg, attempt);
    if raw > cfg.maxDelay then cfg.maxDelay else raw
  }

  /** With non-negative settings the delays never shrink from one retry to the next. */
  lemma DelayMonotone(cfg: RetryConfig, a: nat, b: nat)
    requires 1 <= a <= b
    requires cfg.initialDelay >= 0 && cfg.multiplier >= 0.0
    ensures CalculateDelay(cfg, a) <= CalculateDelay(cfg, b)
  {
    Pow2Monotone(a - 1, b - 1);
    MulLe(Pow2(a - 1), Pow2(b - 1), cfg.initialDelay);
    MulLe(cfg.initialDelay * Pow2(a - 1), cfg.initialDelay * Pow2(b - 1), Trunc(cfg.multiplier));
  }

  lemma MulLe(x: int, y: int, k: int)
    requires x <= y && k >= 0
    ensures k * x <= k * y && x * k <= y * k
  {
  }

  /** Where no intermediate product leaves the int64 range the source's delay is the intended one. */
  lemma AsWrittenAgreesWithoutOverflow(cfg: RetryConfig, attempt: nat)
    requires 1 <= attempt <= 63
    requires -Two63 <= cfg.initialDelay * Pow2(attempt - 1) < Two63
    requires -Two63 <= Exponential(cfg, attempt) < Two63
    ensures CalculateDelayAsWritten(cfg, attempt) == CalculateDelay(cfg, attempt)
  {
    Pow2Monotone(attempt - 1, 62);
    assert Pow2(63) == Two63 by { Pow2Value63(); }
    Pow2Monotone(attempt - 1, 63);
    assert Shl1(attempt - 1) == Pow2(attempt - 1);
  }

  lemma Pow2Value63()
    ensures Pow2(63) == Two63
  {
    Pow2Value32();
    Pow2Add(32, 31);
    Pow2Add(16, 15);
    Pow2Add(8, 7);
  }

  lemma Pow2Value32()
    ensures Pow2(8) == 256 && Pow2(16) == 0x1_0000 && Pow2(32) == 0x1_0000_0000
  {
    assert Pow2(8) == 256;
    Pow2Add(8, 8);
    Pow2Add(16, 16);
  }

  lemma {:induction false} Pow2Add(m: nat, n: nat)
    ensures Pow2(m + n) == Pow2(m) * Pow2(n)
  {
    if n > 0 {
      Pow2Add(m, n - 1);
    }
  }

  /** The default policy waits 200ms, 400ms and 800ms before its three retries. */
  lemma DefaultDelays()
    ensures CalculateDelay(DefaultRetryConfig, 1) == 200 * Millisecond
    ensures CalculateDelay(DefaultRetryConfig, 2) == 400 * Millisecond
    ensures CalculateDelay(DefaultRetryConfig, 3) == 800 * Millisecond
    ensures CalculateDelayAsWritten(DefaultRetryConfig, 3) == 800 * Millisecond
  {
    assert Trunc(2.0) == 2;
    assert Pow2(2) == 4;
  }

  /**
   * With the default delays and multiplier but 37 or more retries allowed, the
   * source's product wraps around to a negative delay, so retry 37 does not
   * wait at all, while the capped delay is 5s.
   */
  lemma OverflowSkipsTheCap()
    ensures CalculateDelayAsWritten(DefaultRetryConfig.(maxRetries := 40), 37) < 0
    ensures CalculateDelay(DefaultRetryConfig.(maxRetries := 40), 37) == 5 * Second
  {
    assert Trunc(2.0) == 2;
    Pow2Value32();
    Pow2Add(32, 4);
    assert Pow2(36) == 0x10_0000_0000;
    var product := 100 * Millisecond * 0x10_0000_0000;
    assert Wrap64(product) == product;
    assert Wrap64(product * 2) == product * 2 - Two64;
  }

  /** A rate-limited (429) or server-side (5xx) status is retried; every other status is final. */
  function ShouldRetryStatus(statusCode: int): (r: bool)
    ensures r <==> statusCode == 429 || statusCode >= 500
    ensures r ==> statusCode != 200
  {
    statusCode >= 500 || statusCode == 429
  }
}
