/** Retry delays. Durations are nanoseconds; the multiplier is an exact real. */
module Backoff {
  import opened Common

  const MILLISECOND := 1_000_000

  datatype Config = Config(
    maxAttempts: int, maxElapsedTime: int, initialInterval: int, maxInterval: int, multiplier: real,
    useJitter: bool, maxCostCents: int, maxTokens: int, enableBudget: bool)
  {
    /** What the constructor of the retry middleware accepts. */
    predicate Valid() {
      && maxAttempts > 0 && initialInterval > 0 && maxInterval >= initialInterval
      && multiplier >= 1.0 && maxElapsedTime >= 0
    }
  }

  /** What error inspection can find in the chain of a handler's error. */
  datatype Error = Error(
    circuitBreaker: bool,                                  // a circuit-breaker error
    rateLimit: bool,                                       // a rate-limit error
    provider: Option<bool>,                                // a provider error, and whether its type is transient
    workflow: Option<bool>,                                // a workflow error, and its retryable flag
    deadlineExceeded: bool,
    network: bool,
    afterProvider: Option<int>,                            // the delay of the first error that offers one
    detail: int)                                           // the delay parsed from a workflow error's details, or zero

  function IsRetryable(e: Error): bool {
    if e.circuitBreaker then false
    else if e.rateLimit then true
    else if e.provider.Some? then e.provider.value
    else if e.workflow.Some? then e.workflow.value
    else e.deadlineExceeded || e.network || e.afterProvider.Some?
  }

  /** Rate-limit and provider errors offer a delay themselves, so the details of a workflow error come last. */
  function ExtractRetryAfter(e: Error): int {
    match e.afterProvider
    case Some(delay) => delay
    case None => if e.workflow.Some? then e.detail else 0
  }

  function Scaled(multiplier: real, b: int): (r: int)
    ensures multiplier >= 1.0 && b >= 0 ==> r >= b
  {
    ScaleUp(b as real, multiplier);
    Truncate(b as real * multiplier)
  }

  lemma ScaleUp(x: real, m: real)
    ensures x >= 0.0 && m >= 1.0 ==> x * m >= x
  {
    if x >= 0.0 && m >= 1.0 {
      assert x * (m - 1.0) >= 0.0;
    }
  }

  function Capped(cfg: Config, b: int): int {
    if b > cfg.maxInterval then cfg.maxInterval else b
  }

  /** The recurrence: each interval is the truncated multiple of the one before, capped. Under a validated configuration
      it stays within [initial, max]. */
  function Interval(cfg: Config, attempt: nat): (r: int)
    requires cfg.Valid() && attempt >= 1
    ensures cfg.initialInterval <= r <= cfg.maxInterval
  {
    if attempt == 1 then cfg.initialInterval
    else Capped(cfg, Scaled(cfg.multiplier, Interval(cfg, attempt - 1)))
  }

  /** A number below the bound, each of which some `draw` of the random source picks. */
  function Pick(draw: nat, bound: nat): (r: nat)
    requires bound > 0
    ensures r < bound
    ensures draw < bound ==> r == draw
  {
    if draw < bound then draw else Pick(draw - bound, bound)
  }

  /** A whole number of milliseconds up to the interval. */
  function FullJitter(interval: int, draw: nat): (r: int)
    requires interval >= 0
    ensures 0 <= r <= interval && r % MILLISECOND == 0
  {
    Pick(draw, interval / MILLISECOND + 1) * MILLISECOND
  }

  function Jittered(cfg: Config, interval: int, draw: nat): (r: int)
    requires interval >= 0
    ensures 0 <= r <= interval
    ensures !cfg.useJitter ==> r == interval
  {
    if cfg.useJitter then FullJitter(interval, draw) else interval
  }

  /** The intervals never decrease. */
  lemma {:induction false} IntervalMonotone(cfg: Config, a: nat, b: nat)
    requires cfg.Valid() && 1 <= a <= b
    ensures Interval(cfg, a) <= Interval(cfg, b)
    decreases b
  {
    if a < b {
      IntervalMonotone(cfg, a, b - 1);
    }
  }

  /** The cap is absorbing, which is why the loops may leave early. */
  lemma CapAbsorbs(cfg: Config, a: nat, b: nat)
    requires cfg.Valid() && 1 <= a <= b && Interval(cfg, a) == cfg.maxInterval
    ensures Interval(cfg, b) == cfg.maxInterval
  {
    IntervalMonotone(cfg, a, b);
  }

  // ----- what the intervals are, in numbers -----

  /** Scaling is the multiplication, less its fraction. */
  lemma ScaledExact(multiplier: real, b: int)
    ensures var product := b as real * multiplier;
            && (product >= 0.0 ==> Scaled(multiplier, b) as real <= product < Scaled(multiplier, b) as real + 1.0)
            && (product <= 0.0 ==> Scaled(multiplier, b) as real - 1.0 < product <= Scaled(multiplier, b) as real)
  {
    TruncateLaw(b as real * multiplier);
  }

  /** The next interval is the multiple of the one before, up to less than a nanosecond, unless it is the cap; and it is
      the cap only if the multiple reaches that. */
  ghost predicate Grows(cfg: Config, before: int, next: int) {
    var product := before as real * cfg.multiplier;
    next as real <= product && (next == cfg.maxInterval || product < next as real + 1.0)
  }

  lemma CappedGrows(cfg: Config, b: int)
    requires cfg.Valid() && b >= 0
    ensures Grows(cfg, b, Capped(cfg, Scaled(cfg.multiplier, b)))
  {
    var product := b as real * cfg.multiplier;
    ScaleUp(b as real, cfg.multiplier);
    TruncateLaw(product);
    assert Scaled(cfg.multiplier, b) == Truncate(product);
  }

  lemma IntervalGrows(cfg: Config, k: nat)
    requires cfg.Valid() && k >= 1
    ensures Grows(cfg, Interval(cfg, k), Interval(cfg, k + 1))
  {
    CappedGrows(cfg, Interval(cfg, k));
  }

  function Power(m: real, n: nat): real {
    if n == 0 then 1.0 else Power(m, n - 1) * m
  }

  /** The exact exponential after n multiplications. */
  function Exponential(cfg: Config, n: nat): real { cfg.initialInterval as real * Power(cfg.multiplier, n) }

  lemma ExponentialGrows(cfg: Config, n: nat)
    ensures Exponential(cfg, 0) == cfg.initialInterval as real
    ensures Exponential(cfg, n + 1) == Exponential(cfg, n) * cfg.multiplier
  {
    assert Power(cfg.multiplier, n + 1) == Power(cfg.multiplier, n) * cfg.multiplier;
  }

  /** No interval exceeds the exact exponential. */
  lemma {:induction false} IntervalBelowExponential(cfg: Config, attempt: nat)
    requires cfg.Valid() && attempt >= 1
    ensures Interval(cfg, attempt) as real <= Exponential(cfg, attempt - 1)
  {
    if attempt == 1 {
      ExponentialGrows(cfg, 0);
    } else {
      IntervalBelowExponential(cfg, attempt - 1);
      IntervalGrows(cfg, attempt - 1);
      BelowNext(cfg, Interval(cfg, attempt - 1), Interval(cfg, attempt), attempt - 2);
    }
  }

  lemma BelowNext(cfg: Config, before: int, next: int, n: nat)
    requires cfg.Valid() && Grows(cfg, before, next) && before as real <= Exponential(cfg, n)
    ensures next as real <= Exponential(cfg, n + 1)
  {
    ExponentialGrows(cfg, n);
    TimesMonotone(before as real, Exponential(cfg, n), cfg.multiplier);
  }

  lemma TimesMonotone(x: real, y: real, m: real)
    requires x <= y && m >= 0.0
    ensures x * m <= y * m
  {
    assert (y - x) * m >= 0.0;
  }

  function IntPower(m: nat, n: nat): nat {
    if n == 0 then 1 else IntPower(m, n - 1) * m
  }

  function Min(a: int, b: int): int { if a <= b then a else b }

  /** For a whole multiplier the intervals are the exponential itself, capped. */
  lemma {:induction false} IntervalIsExponential(cfg: Config, m: nat, attempt: nat)
    requires cfg.Valid() && attempt >= 1 && cfg.multiplier == m as real
    ensures Interval(cfg, attempt) == Min(cfg.maxInterval, cfg.initialInterval * IntPower(m, attempt - 1))
  {
    if attempt > 1 {
      var power := IntPower(m, attempt - 2);
      IntervalIsExponential(cfg, m, attempt - 1);
      NextPower(cfg, m, Interval(cfg, attempt - 1), power);
    } else {
      assert cfg.initialInterval * 1 == cfg.initialInterval;
    }
  }

  lemma NextPower(cfg: Config, m: nat, before: int, power: nat)
    requires cfg.Valid() && cfg.multiplier == m as real
    requires before == Min(cfg.maxInterval, cfg.initialInterval * power)
    ensures Capped(cfg, Scaled(cfg.multiplier, before)) == Min(cfg.maxInterval, cfg.initialInterval * (power * m))
  {
    var exact := cfg.initialInterval * power;
    Associate(cfg.initialInterval, power, m);
    WholeScaled(m, before);
    WholeScaled(m, exact);
  }

  lemma Associate(x: int, y: nat, z: nat)
    requires x >= 0
    ensures x * y >= 0 && x * y * z == x * (y * z)
  {
  }

  lemma WholeScaled(m: nat, b: int)
    requires m >= 1 && b >= 0
    ensures Scaled(m as real, b) == b * m
    ensures b <= b * m
  {
    assert b as real * m as real == (b * m) as real;
    assert b * (m - 1) >= 0;
  }

  /** Jitter can yield every whole number of milliseconds up to the interval. */
  lemma JitterReachesAll(interval: int, ms: nat)
    requires interval >= 0 && ms * 1_000_000 <= interval
    ensures FullJitter(interval, ms) == ms * 1_000_000
  {
    assert ms <= interval / 1_000_000;
  }

  /** Which errors are retried, as one condition: breaker errors never, rate limits otherwise always, then the verdict
      of a provider error, then that of a workflow error, and of the rest those that time out, fail in the network or
      name a delay. */
  lemma RetryableExactly(e: Error)
    ensures IsRetryable(e) <==>
              && !e.circuitBreaker
              && (|| e.rateLimit
                  || e.provider == Some(true)
                  || (e.provider.None? && e.workflow == Some(true))
                  || (e.provider.None? && e.workflow.None?
                      && (e.deadlineExceeded || e.network || e.afterProvider.Some?)))
  {
  }

  /** The delay an error asks for: the first one offered in its chain, else that of a workflow error's details, else
      none. */
  lemma RetryAfterOrder(e: Error, delay: int)
    ensures ExtractRetryAfter(e) == delay <==>
            || e.afterProvider == Some(delay)
            || (e.afterProvider.None? && delay == if e.workflow.Some? then e.detail else 0)
  {
  }

  // ----- the three loops -----

  method CalculateBackoff(cfg: Config, attempt: int, error: Error, draw: nat) returns (backoff: int)
    requires cfg.Valid() && attempt >= 1
    ensures backoff == if ExtractRetryAfter(error) > 0 then ExtractRetryAfter(error)
                       else Jittered(cfg, Interval(cfg, attempt), draw)
  {
    var base := cfg.initialInterval;
    if base <= 0 {
      base := MILLISECOND;
    }
    var i := 1;
    while i < attempt
      invariant 1 <= i <= attempt && base == Interval(cfg, i)
    {
      var multiplier := cfg.multiplier;
      if multiplier < 1.0 {
        multiplier := 1.0;
      }
      base := Scaled(multiplier, base);
      if base > cfg.maxInterval {
        base := cfg.maxInterval;
        CapAbsorbs(cfg, i + 1, attempt);
        break;
      }
      i := i + 1;
    }
    var exponential := base;
    if cfg.useJitter {
      exponential := FullJitter(base, draw);
    }
    var retryAfter := ExtractRetryAfter(error);
    if retryAfter > 0 {
      return retryAfter;
    }
    return exponential;
  }

  method CalculatePureExponentialBackoff(cfg: Config, attempt: int, draw: nat) returns (backoff: int)
    requires cfg.Valid() && attempt >= 1
    ensures backoff == Jittered(cfg, Interval(cfg, attempt), draw)
  {
    var base := cfg.initialInterval;
    var i := 1;
    while i < attempt
      invariant 1 <= i <= attempt && base == Interval(cfg, i)
    {
      base := Scaled(cfg.multiplier, base);
      if base > cfg.maxInterval {
        base := cfg.maxInterval;
        CapAbsorbs(cfg, i + 1, attempt);
        break;
      }
      i := i + 1;
    }
    if cfg.useJitter {
      return FullJitter(base, draw);
    }
    return base;
  }

  // ----- the standalone function, for any configuration -----

  /** The uncapped recurrence. */
  function Product(cfg: Config, attempt: nat): int
    requires attempt >= 1
  {
    if attempt == 1 then cfg.initialInterval else Scaled(cfg.multiplier, Product(cfg, attempt - 1))
  }

  /** Some product up to the given attempt goes beyond the cap; reaching the cap exactly does not count, nor does the
      initial interval. */
  ghost predicate Overshoots(cfg: Config, attempt: nat) {
    exists k: nat :: 2 <= k <= attempt && Product(cfg, k) > cfg.maxInterval
  }

  /** Under a validated configuration the product is the interval until it goes beyond the cap, where the interval is
      the cap; and it does so exactly when some scaled interval does. */
  lemma {:induction false} ProductIsInterval(cfg: Config, attempt: nat)
    requires cfg.Valid() && attempt >= 1
    ensures Interval(cfg, attempt) == if Overshoots(cfg, attempt) then cfg.maxInterval else Product(cfg, attempt)
    ensures Overshoots(cfg, attempt) <==>
            exists k: nat :: 1 <= k < attempt && Scaled(cfg.multiplier, Interval(cfg, k)) > cfg.maxInterval
  {
    if attempt > 1 {
      var past := attempt - 1;
      ProductIsInterval(cfg, past);
      if Overshoots(cfg, past) {
        CapAbsorbs(cfg, past, attempt);
        var k: nat :| 2 <= k <= past && Product(cfg, k) > cfg.maxInterval;
        assert k <= attempt;
      } else {
        assert Scaled(cfg.multiplier, Interval(cfg, past)) == Product(cfg, attempt);
      }
    }
  }

  /** Jitter of an interval, which panics from one negative millisecond on. */
  function StandaloneJitter(cfg: Config, interval: int, draw: nat): Option<int> {
    if !cfg.useJitter then Some(interval)
    else if Quotient(interval, MILLISECOND) < 0 then None
    else Some(Pick(draw, Quotient(interval, MILLISECOND) + 1) * MILLISECOND)
  }

  /** The standalone function, which checks no configuration: it returns the cap, unjittered, exactly when some product
      went beyond it, and otherwise the jittered product; None stands for the panic of the random source. */
  method ExponentialBackoff(cfg: Config, attempt: int, draw: nat) returns (backoff: Option<int>)
    ensures attempt <= 0 ==> backoff == Some(0)
    ensures attempt >= 1 ==>
              backoff == if Overshoots(cfg, attempt) then Some(cfg.maxInterval)
                         else StandaloneJitter(cfg, Product(cfg, attempt), draw)
    ensures attempt >= 1 && cfg.Valid() ==>
              && backoff == Some(if Overshoots(cfg, attempt) then cfg.maxInterval
                                 else Jittered(cfg, Interval(cfg, attempt), draw))
              && 0 <= backoff.value <= Interval(cfg, attempt)
  {
    if attempt <= 0 {
      return Some(0);
    }
    if cfg.Valid() {
      ProductIsInterval(cfg, attempt);
    }
    var base := cfg.initialInterval;
    var i := 1;
    while i < attempt
      invariant 1 <= i <= attempt && base == Product(cfg, i)
      invariant !Overshoots(cfg, i)
    {
      base := Scaled(cfg.multiplier, base);
      assert base == Product(cfg, i + 1);
      if base > cfg.maxInterval {
        return Some(cfg.maxInterval);
      }
      i := i + 1;
    }
    if cfg.useJitter {
      var ms := Quotient(base, MILLISECOND);
      return if ms < 0 then None else Some(Pick(draw, ms + 1) * MILLISECOND);
    }
    return Some(base);
  }
}
