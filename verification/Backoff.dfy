/** The retry worker's capped exponential schedule
    (services/resolution/internal/retry/worker.go, nextRetryTime). */
module Backoff {
  datatype RetryConfig = RetryConfig(baseBackoffSecs: int, maxBackoffSecs: int)

  function Pow2(n: nat): (p: int)
    ensures 1 <= p
  {
    if n == 0 then 1 else 2 * Pow2(n - 1)
  }

  /** base * 2^n, by doubling. */
  function Doubled(base: int, n: nat): int {
    if n == 0 then base else 2 * Doubled(base, n - 1)
  }

  lemma {:induction false} DoubledIsPower(base: int, n: nat)
    ensures Doubled(base, n) == base * Pow2(n)
  {
    if n > 0 {
      DoubledIsPower(base, n - 1);
      assert base * (2 * Pow2(n - 1)) == 2 * (base * Pow2(n - 1));
    }
  }

  /** Seconds until the attempt after attempt number `attempt`; the exponent is attempt - 1. */
  function Delay(cfg: RetryConfig, attempt: nat): int
    requires 1 <= attempt
  {
    var backoff := Doubled(cfg.baseBackoffSecs, attempt - 1);
    if backoff > cfg.maxBackoffSecs then cfg.maxBackoffSecs else backoff
  }

  /** Milliseconds since the epoch. */
  function NextRetryTime(cfg: RetryConfig, attempt: nat, now: int): int
    requires 1 <= attempt
  {
    now + 1000 * Delay(cfg, attempt)
  }

  /** Total delay, in seconds, after the attempts numbered from+1 .. from+n. */
  function TotalDelay(cfg: RetryConfig, from: nat, n: nat): int {
    if n == 0 then 0 else TotalDelay(cfg, from, n - 1) + Delay(cfg, from + n)
  }

  lemma {:induction false} TotalDelayFirst(cfg: RetryConfig, from: nat, n: nat)
    requires 0 < n
    ensures TotalDelay(cfg, from, n) == Delay(cfg, from + 1) + TotalDelay(cfg, from + 1, n - 1)
  {
    if n > 1 { TotalDelayFirst(cfg, from, n - 1); }
  }

  predicate Sane(cfg: RetryConfig) { 0 <= cfg.baseBackoffSecs && 0 <= cfg.maxBackoffSecs }

  /** Delay k is min(base * 2^(k-1), cap). */
  lemma DelayIs(cfg: RetryConfig, k: nat)
    requires 1 <= k
    ensures var power := cfg.baseBackoffSecs * Pow2(k - 1);
      Delay(cfg, k) == if power <= cfg.maxBackoffSecs then power else cfg.maxBackoffSecs
  {
    DoubledIsPower(cfg.baseBackoffSecs, k - 1);
  }

  lemma {:induction false} DoubledNonNegative(base: nat, n: nat)
    ensures base <= Doubled(base, n)
  {
    if n > 0 { DoubledNonNegative(base, n - 1); }
  }

  /** The schedule never shortens. */
  lemma {:induction false} DelayMonotone(cfg: RetryConfig, k: nat, l: nat)
    requires Sane(cfg) && 1 <= k <= l
    ensures 0 <= Delay(cfg, k) <= Delay(cfg, l) <= cfg.maxBackoffSecs
    decreases l
  {
    DoubledNonNegative(cfg.baseBackoffSecs, k - 1);
    if k < l {
      DelayMonotone(cfg, k, l - 1);
      DoubledNonNegative(cfg.baseBackoffSecs, l - 2);
    }
  }

  lemma {:induction false} TotalDelayDoubled(cfg: RetryConfig, n: nat)
    requires Sane(cfg)
    ensures 0 <= TotalDelay(cfg, 0, n) <= Doubled(cfg.baseBackoffSecs, n) - cfg.baseBackoffSecs
    ensures TotalDelay(cfg, 0, n) <= n * cfg.maxBackoffSecs
  {
    if n > 0 {
      TotalDelayDoubled(cfg, n - 1);
      DelayMonotone(cfg, n, n);
    }
  }

  /** The first n delays sum to at most base * (2^n - 1) and to at most n * cap. */
  lemma TotalDelayBound(cfg: RetryConfig, n: nat)
    requires Sane(cfg)
    ensures 0 <= TotalDelay(cfg, 0, n) <= cfg.baseBackoffSecs * (Pow2(n) - 1)
    ensures TotalDelay(cfg, 0, n) <= n * cfg.maxBackoffSecs
  {
    TotalDelayDoubled(cfg, n);
    DoubledIsPower(cfg.baseBackoffSecs, n);
  }
}
