/**
 The circuit breaker at the granularity of whole calls: no other goroutine runs between the
 atomic operations of one call, so every compare-and-swap succeeds at once.
 Times and durations are nanoseconds.
 */
module CircuitBreaker {
  import opened Common

  datatype CircuitState = Closed | Open | HalfOpen

  datatype Config = Config(
    failureThreshold: int, successThreshold: int, openTimeout: int, halfOpenProbes: int, adaptive: bool)

  const MAX_INT32 := 0x7FFF_FFFF
  const JITTER_DIVISOR := 10
  const MIN_REQUESTS_FOR_ADJUSTMENT := 10
  const WINDOW_DURATION := 60_000_000_000

  // ----- adaptive thresholds -----

  datatype Window = Window(base: int, threshold: int, requests: int, failures: int, start: int)

  function FitInt32(n: int): int {
    if n < 0 || n > MAX_INT32 then MAX_INT32 else n
  }

  /** The threshold that the given error rate calls for. */
  function Target(base: int, requests: int, failures: int): int
    requires requests > 0
  {
    var errorRate := failures as real / requests as real;
    var raw :=
      if errorRate > 0.5 then FitInt32(Quotient(base, 2))
      else if errorRate > 0.3 then
        var adjusted := base as real * 0.75;
        if adjusted > MAX_INT32 as real then MAX_INT32 else Truncate(adjusted)
      else FitInt32(base);
    if raw < 1 then 1 else raw
  }

  function NewWindow(base: int, now: int): Window {
    Window(base, FitInt32(base), 0, 0, now)
  }

  function Adjusted(w: Window): Window {
    if w.requests < MIN_REQUESTS_FOR_ADJUSTMENT then w
    else w.(threshold := Target(w.base, w.requests, w.failures))
  }

  function Recorded(w: Window, success: bool, now: int): Window {
    var w1 := if now - w.start > WINDOW_DURATION then w.(requests := 0, failures := 0, start := now) else w;
    Adjusted(w1.(requests := w1.requests + 1, failures := w1.failures + if success then 0 else 1))
  }

  class AdaptiveThresholds {
    const baseFailureThreshold: int
    var currentThreshold: int
    var totalRequests: int
    var totalFailures: int
    var windowStart: int

    function View(): Window
      reads this
    {
      Window(baseFailureThreshold, currentThreshold, totalRequests, totalFailures, windowStart)
    }

    constructor (baseThreshold: int, now: int)
      ensures View() == NewWindow(baseThreshold, now)
    {
      baseFailureThreshold := baseThreshold;
      currentThreshold := if baseThreshold < 0 || baseThreshold > MAX_INT32 then MAX_INT32 else baseThreshold;
      totalRequests, totalFailures, windowStart := 0, 0, now;
    }

    method RecordRequest(success: bool, now: int)
      modifies this
      ensures View() == Recorded(old(View()), success, now)
    {
      if now - windowStart > WINDOW_DURATION {
        totalRequests := 0;
        totalFailures := 0;
        windowStart := now;
      }
      totalRequests := totalRequests + 1;
      if !success {
        totalFailures := totalFailures + 1;
      }
      Adjust();
    }

    method Adjust()
      modifies this
      ensures View() == Adjusted(old(View()))
    {
      if totalRequests < MIN_REQUESTS_FOR_ADJUSTMENT {
        return;
      }
      var errorRate := totalFailures as real / totalRequests as real;
      var newThreshold;
      if errorRate > 0.5 {
        var half := Quotient(baseFailureThreshold, 2);
        newThreshold := if half < 0 || half > MAX_INT32 then MAX_INT32 else half;
      } else if errorRate > 0.3 {
        var adjusted := baseFailureThreshold as real * 0.75;
        newThreshold := if adjusted > MAX_INT32 as real then MAX_INT32 else Truncate(adjusted);
      } else {
        newThreshold := FitInt32(baseFailureThreshold);
      }
      if newThreshold < 1 {
        newThreshold := 1;
      }
      currentThreshold := newThreshold;
    }
  }

  // ----- the breaker as a value -----

  datatype Breaker = Breaker(
    state: CircuitState, failures: int, successes: int, lastFailureTime: int, probes: int, window: Option<Window>)

  datatype Decision = Admitted(probe: bool) | CircuitOpen | ProbeLimit

  function NewBreaker(cfg: Config, now: int): Breaker {
    Breaker(Closed, 0, 0, 0, 0, if cfg.adaptive then Some(NewWindow(cfg.failureThreshold, now)) else None)
  }

  /** The jitter drawn for one call; `draw` stands for the random source. */
  function Jitter(cfg: Config, draw: nat): (j: int)
    ensures 0 <= j <= MaxJitter(cfg)
  {
    var range := Quotient(cfg.openTimeout, JITTER_DIVISOR);
    if cfg.openTimeout == 0 || range <= 0 then 0 else draw % range
  }

  function MaxJitter(cfg: Config): (j: nat)
  {
    var range := Quotient(cfg.openTimeout, JITTER_DIVISOR);
    if range <= 0 then 0 else range - 1
  }

  function Transitioned(b: Breaker, target: CircuitState): Breaker {
    if b.state == target then b
    else match target
      case HalfOpen => b.(state := target, successes := 0, probes := 0)
      case _ => b.(state := target, failures := 0, successes := 0, probes := 0)
  }

  function TakeProbe(cfg: Config, b: Breaker): (Breaker, Decision) {
    if b.probes >= cfg.halfOpenProbes then (b, ProbeLimit)
    else (b.(probes := b.probes + 1), Admitted(true))
  }

  function Allowed(cfg: Config, b: Breaker, now: int, draw: nat): (Breaker, Decision) {
    match b.state
    case Closed => (b, Admitted(false))
    case Open =>
      if now - b.lastFailureTime <= cfg.openTimeout + Jitter(cfg, draw) then (b, CircuitOpen)
      else TakeProbe(cfg, Transitioned(b, HalfOpen))
    case HalfOpen => TakeProbe(cfg, b)
  }

  function WindowAfter(window: Option<Window>, success: bool, now: int): Option<Window> {
    match window
    case None => None
    case Some(w) => Some(Recorded(w, success, now))
  }

  function Succeeded(cfg: Config, b: Breaker, now: int): Breaker {
    var b1 := b.(window := WindowAfter(b.window, true, now));
    match b1.state
    case Closed => b1.(failures := 0)
    case Open => b1
    case HalfOpen =>
      if b1.successes + 1 >= cfg.successThreshold
      then b1.(state := Closed, failures := 0, successes := 0, probes := 0)
      else b1.(successes := b1.successes + 1)
  }

  function ThresholdNow(cfg: Config, b: Breaker): int {
    match b.window
    case None => cfg.failureThreshold
    case Some(w) => w.threshold
  }

  function Failed(cfg: Config, b: Breaker, now: int): Breaker {
    var b1 := b.(lastFailureTime := now, window := WindowAfter(b.window, false, now));
    match b1.state
    case Closed =>
      if b1.failures + 1 >= ThresholdNow(cfg, b1) then b1.(state := Open, failures := 0, successes := 0)
      else b1.(failures := b1.failures + 1)
    case HalfOpen => b1.(state := Open, failures := 0, successes := 0, probes := 0)
    case Open => b1
  }

  function Released(b: Breaker): Breaker {
    if b.probes == 0 then b else b.(probes := b.probes - 1)
  }

  // ----- the breaker as an object -----

  class CircuitBreaker {
    var state: CircuitState
    var failures: int
    var successes: int
    var lastFailureTime: int
    var halfOpenProbes: int
    const config: Config
    const adaptive: AdaptiveThresholds?

    function View(): Breaker
      reads this, adaptive
    {
      Breaker(state, failures, successes, lastFailureTime, halfOpenProbes,
              if adaptive == null then None else Some(adaptive.View()))
    }

    constructor (cfg: Config, now: int)
      ensures config == cfg && View() == NewBreaker(cfg, now)
      ensures adaptive != null ==> fresh(adaptive)
    {
      state, failures, successes, lastFailureTime, halfOpenProbes := Closed, 0, 0, 0, 0;
      config := cfg;
      if cfg.adaptive {
        adaptive := new AdaptiveThresholds(cfg.failureThreshold, now);
      } else {
        adaptive := null;
      }
    }

    method GetJitter(draw: nat) returns (jitter: int)
      ensures jitter == Jitter(config, draw)
    {
      if config.openTimeout == 0 {
        return 0;
      }
      var range := Quotient(config.openTimeout, JITTER_DIVISOR);
      if range <= 0 {
        return 0;
      }
      return draw % range;
    }

    method HandleHalfOpenProbe() returns (d: Decision)
      modifies this
      ensures (View(), d) == TakeProbe(config, old(View()))
    {
      if halfOpenProbes >= config.halfOpenProbes {
        return ProbeLimit;
      }
      halfOpenProbes := halfOpenProbes + 1;
      return Admitted(true);
    }

    method Allow(now: int, draw: nat) returns (d: Decision)
      modifies this
      ensures (View(), d) == Allowed(config, old(View()), now, draw)
    {
      if state == Closed {
        return Admitted(false);
      }
      if state == Open {
        var jitter := GetJitter(draw);
        if now - lastFailureTime <= config.openTimeout + jitter {
          return CircuitOpen;
        }
        TransitionTo(HalfOpen);
      }
      d := HandleHalfOpenProbe();
    }

    method Cleanup()
      modifies this
      ensures View() == Released(old(View()))
    {
      if halfOpenProbes != 0 {
        halfOpenProbes := halfOpenProbes - 1;
      }
    }

    method RecordSuccess(now: int)
      modifies this, adaptive
      ensures View() == Succeeded(config, old(View()), now)
    {
      if adaptive != null {
        adaptive.RecordRequest(true, now);
      }
      match state {
        case Closed =>
          failures := 0;
        case HalfOpen =>
          successes := successes + 1;
          if successes >= config.successThreshold {
            state := Closed;
            failures := 0;
            successes := 0;
            halfOpenProbes := 0;
          }
        case Open =>
      }
    }

    method RecordFailure(now: int)
      modifies this, adaptive
      ensures View() == Failed(config, old(View()), now)
    {
      lastFailureTime := now;
      if adaptive != null {
        adaptive.RecordRequest(false, now);
      }
      match state {
        case Closed =>
          failures := failures + 1;
          var threshold := config.failureThreshold;
          if adaptive != null {
            threshold := adaptive.currentThreshold;
          }
          if failures >= threshold {
            state := Open;
            failures := 0;
            successes := 0;
          }
        case HalfOpen =>
          state := Open;
          failures := 0;
          successes := 0;
          halfOpenProbes := 0;
        case Open =>
      }
    }

    method TransitionTo(newState: CircuitState)
      modifies this
      ensures View() == Transitioned(old(View()), newState)
    {
      var oldState := state;
      state := newState;
      if oldState != newState {
        match newState {
          case Closed =>
            failures, successes, halfOpenProbes := 0, 0, 0;
          case Open =>
            failures, successes, halfOpenProbes := 0, 0, 0;
          case HalfOpen =>
            successes, halfOpenProbes := 0, 0;
        }
      }
    }
  }
}
