/**
 Whole runs of one circuit breaker. The abstract machine below has no counters: its state is read
 off the trace alone. The breaker refines it.
 */
module BreakerHistory {
  import opened CircuitBreaker
  import opened Common

  datatype Event =
    | Allow(now: int, draw: nat)
    | Success(now: int)
    | Failure(now: int)
    | Cleanup
    | Reset

  function Step(cfg: Config, b: Breaker, e: Event): Breaker {
    match e
    case Allow(now, draw) => Allowed(cfg, b, now, draw).0
    case Success(now) => Succeeded(cfg, b, now)
    case Failure(now) => Failed(cfg, b, now)
    case Cleanup => Released(b)
    case Reset => Transitioned(b, Closed)
  }

  function Run(cfg: Config, start: int, tr: seq<Event>): Breaker {
    if tr == [] then NewBreaker(cfg, start)
    else Step(cfg, Run(cfg, start, tr[..|tr| - 1]), tr[|tr| - 1])
  }

  // ----- what the trace says -----

  /** The time of the latest recorded failure, or the zero time if there was none. */
  ghost function LatestFailure(tr: seq<Event>): int {
    if tr == [] then 0
    else match tr[|tr| - 1]
      case Failure(now) => now
      case _ => LatestFailure(tr[..|tr| - 1])
  }

  /** The adaptive window sees only the recorded outcomes. */
  ghost function WindowOf(cfg: Config, start: int, tr: seq<Event>): Option<Window> {
    if tr == [] then NewBreaker(cfg, start).window
    else
      var before := WindowOf(cfg, start, tr[..|tr| - 1]);
      match tr[|tr| - 1]
      case Success(now) => WindowAfter(before, true, now)
      case Failure(now) => WindowAfter(before, false, now)
      case _ => before
  }

  ghost function Threshold(cfg: Config, start: int, tr: seq<Event>): int {
    match WindowOf(cfg, start, tr)
    case None => cfg.failureThreshold
    case Some(w) => w.threshold
  }

  /** The state the trace prescribes. */
  ghost function State(cfg: Config, start: int, tr: seq<Event>): CircuitState
    decreases |tr|, 0
  {
    if tr == [] then Closed
    else
      var past, e := tr[..|tr| - 1], tr[|tr| - 1];
      var before := State(cfg, start, past);
      match before
      case Closed =>
        if e.Failure? && FailureStreak(cfg, start, past) + 1 >= Threshold(cfg, start, tr) then Open else Closed
      case Open =>
        if e.Allow? && e.now - LatestFailure(past) > cfg.openTimeout + Jitter(cfg, e.draw) then HalfOpen
        else if e.Reset? then Closed
        else Open
      case HalfOpen =>
        if e.Failure? then Open
        else if e.Reset? || (e.Success? && SuccessRun(cfg, start, past) + 1 >= cfg.successThreshold) then Closed
        else HalfOpen
  }

  /** The last event of the trace brought the breaker into state s. */
  ghost predicate Enters(cfg: Config, start: int, tr: seq<Event>, s: CircuitState)
    requires tr != []
    decreases |tr|, 1
  {
    State(cfg, start, tr) == s && State(cfg, start, tr[..|tr| - 1]) != s
  }

  /** Failures since the later of the last success and the last entry to Closed. */
  ghost function FailureStreak(cfg: Config, start: int, tr: seq<Event>): nat
    decreases |tr|, 2
  {
    if tr == [] || tr[|tr| - 1].Success? || Enters(cfg, start, tr, Closed) then 0
    else FailureStreak(cfg, start, tr[..|tr| - 1]) + if tr[|tr| - 1].Failure? then 1 else 0
  }

  /** Successes since the last entry to HalfOpen. */
  ghost function SuccessRun(cfg: Config, start: int, tr: seq<Event>): nat
    decreases |tr|, 2
  {
    if tr == [] || Enters(cfg, start, tr, HalfOpen) then 0
    else SuccessRun(cfg, start, tr[..|tr| - 1]) + if tr[|tr| - 1].Success? then 1 else 0
  }

  /** The breaker refines the counter-free machine: state, counters, failure time and window are functions of the trace.
      */
  lemma {:induction false} BreakerFollowsHistory(cfg: Config, start: int, tr: seq<Event>)
    ensures var b := Run(cfg, start, tr);
            && b.state == State(cfg, start, tr)
            && b.failures == (if b.state == Closed then FailureStreak(cfg, start, tr) else 0)
            && b.successes == (if b.state == HalfOpen then SuccessRun(cfg, start, tr) else 0)
            && b.lastFailureTime == LatestFailure(tr)
            && b.window == WindowOf(cfg, start, tr)
    decreases |tr|
  {
    if tr != [] {
      var past := tr[..|tr| - 1];
      BreakerFollowsHistory(cfg, start, past);
    }
  }

  /** Slots taken since the last entry to HalfOpen: by the probes admitted since, the one that entered included, less
      the cleanups that found one taken. */
  ghost function SlotsTaken(cfg: Config, start: int, tr: seq<Event>): nat {
    if tr == [] || State(cfg, start, tr) != HalfOpen then 0
    else
      var past := tr[..|tr| - 1];
      var before := if State(cfg, start, past) == HalfOpen then SlotsTaken(cfg, start, past) else 0;
      match tr[|tr| - 1]
      case Allow(_, _) => if before < cfg.halfOpenProbes then before + 1 else before
      case Cleanup => if before == 0 then 0 else before - 1
      case _ => before
  }

  /** What the history prescribes for a request: a closed breaker lets it pass, an open one refuses until the timeout
      and the jitter are over, and otherwise it needs a free slot. */
  ghost function Prescribed(cfg: Config, start: int, tr: seq<Event>, now: int, draw: nat): Decision {
    var state := State(cfg, start, tr);
    if state == Closed then Admitted(false)
    else if state == Open && now - LatestFailure(tr) <= cfg.openTimeout + Jitter(cfg, draw) then CircuitOpen
    else if SlotsTaken(cfg, start, tr) < cfg.halfOpenProbes then Admitted(true)
    else ProbeLimit
  }

  /** Every decision of the breaker is the one its history prescribes. */
  lemma {:induction false} DecisionsFollowHistory(cfg: Config, start: int, tr: seq<Event>, now: int, draw: nat)
    ensures Run(cfg, start, tr).probes == SlotsTaken(cfg, start, tr)
    ensures Allowed(cfg, Run(cfg, start, tr), now, draw).1 == Prescribed(cfg, start, tr, now, draw)
    decreases |tr|
  {
    BreakerFollowsHistory(cfg, start, tr);
    if tr != [] {
      DecisionsFollowHistory(cfg, start, tr[..|tr| - 1], now, draw);
      BreakerFollowsHistory(cfg, start, tr[..|tr| - 1]);
    }
  }

  // ----- timing of the open state -----

  /** From position `from` on, nobody resets and every allow comes within openTimeout of the latest failure. */
  ghost predicate Cooling(cfg: Config, tr: seq<Event>, from: nat) {
    forall k | from <= k < |tr| ::
      !tr[k].Reset? && (tr[k].Allow? ==> tr[k].now - LatestFailure(tr[..k]) <= cfg.openTimeout)
  }

  /** An open breaker admits nobody until strictly more than openTimeout after the latest recorded failure. */
  lemma {:induction false} OpenAdmitsNobody(cfg: Config, start: int, tr: seq<Event>, from: nat, k: nat)
    requires from <= k <= |tr| && Cooling(cfg, tr, from)
    requires State(cfg, start, tr[..from]) == Open
    ensures State(cfg, start, tr[..k]) == Open
    ensures k < |tr| && tr[k].Allow? ==>
              Allowed(cfg, Run(cfg, start, tr[..k]), tr[k].now, tr[k].draw).1 == CircuitOpen
  {
    if k > from {
      OpenAdmitsNobody(cfg, start, tr, from, k - 1);
      assert tr[..k][..k - 1] == tr[..k - 1];
    }
    BreakerFollowsHistory(cfg, start, tr[..k]);
  }

  /** For every jitter choice: refused exactly up to openTimeout, admitted exactly after openTimeout plus the largest
      jitter. */
  lemma ReadmissionTimes(cfg: Config, b: Breaker, now: int)
    requires b.state == Open
    ensures var elapsed := now - b.lastFailureTime;
            && ((forall draw: nat :: Allowed(cfg, b, now, draw).1 == CircuitOpen) <==> elapsed <= cfg.openTimeout)
            && ((forall draw: nat :: Allowed(cfg, b, now, draw).1 == Admitted(true)) <==>
                  cfg.halfOpenProbes >= 1 && elapsed > cfg.openTimeout + MaxJitter(cfg))
  {
    assert Jitter(cfg, 0) == 0;
    assert Jitter(cfg, MaxJitter(cfg)) == MaxJitter(cfg);
    var early, late := Allowed(cfg, b, now, 0), Allowed(cfg, b, now, MaxJitter(cfg));
    assert early.1 == CircuitOpen <==> now - b.lastFailureTime <= cfg.openTimeout;
    assert late.1 == CircuitOpen <==> now - b.lastFailureTime <= cfg.openTimeout + MaxJitter(cfg);
  }

  /** On a clock that does not run back, a tenth more than openTimeout always brings a probe exactly when openTimeout is
      not zero and there are slots. */
  lemma TenPercentSuffices(cfg: Config)
    ensures (forall b: Breaker, now: int, draw: nat ::
               b.state == Open && now >= b.lastFailureTime && 10 * (now - b.lastFailureTime) >= 11 * cfg.openTimeout ==>
                 Allowed(cfg, b, now, draw).1 == Admitted(true))
            <==> cfg.openTimeout != 0 && cfg.halfOpenProbes >= 1
  {
    if cfg.openTimeout != 0 && cfg.halfOpenProbes >= 1 {
      forall b: Breaker, now: int, draw: nat
        | b.state == Open && now >= b.lastFailureTime && 10 * (now - b.lastFailureTime) >= 11 * cfg.openTimeout
        ensures Allowed(cfg, b, now, draw).1 == Admitted(true)
      {
        ReadmissionTimes(cfg, b, now);
      }
    } else {
      var b := Breaker(Open, 0, 0, 0, 0, None);
      var now := if cfg.openTimeout <= 0 then 0 else 2 * cfg.openTimeout;
      assert Allowed(cfg, b, now, 0).1 != Admitted(true);
    }
  }

  /** With a zero openTimeout an allow in the instant of the failure is still refused. */
  lemma ZeroTimeoutStillRefuses(now: int, draw: nat)
    ensures var cfg := Config(1, 1, 0, 1, false);
            Allowed(cfg, Run(cfg, 0, [Failure(now)]), now, draw).1 == CircuitOpen
  {
    var cfg := Config(1, 1, 0, 1, false);
    BreakerFollowsHistory(cfg, 0, [Failure(now)]);
    assert [Failure(now)][..0] == [];
    assert FailureStreak(cfg, 0, []) == 0;
    assert WindowOf(cfg, 0, []) == None;
  }

  // ----- adaptive thresholds and counter ranges -----

  predicate WindowValid(cfg: Config, w: Window) {
    && w.base == cfg.failureThreshold
    && 0 <= w.failures <= w.requests
    && 1 <= w.threshold <= w.base && w.threshold <= MAX_INT32
  }

  lemma TargetRange(base: int, requests: int, failures: int)
    requires base >= 1 && 0 <= failures <= requests && requests > 0
    ensures 1 <= Target(base, requests, failures) <= base
    ensures Target(base, requests, failures) <= MAX_INT32
  {
  }

  lemma RecordedValid(cfg: Config, w: Window, success: bool, now: int)
    requires cfg.failureThreshold >= 1 && WindowValid(cfg, w)
    ensures WindowValid(cfg, Recorded(w, success, now))
  {
    var w1 := if now - w.start > WINDOW_DURATION then w.(requests := 0, failures := 0, start := now) else w;
    TargetRange(w.base, w1.requests + 1, w1.failures + if success then 0 else 1);
  }

  /** In every reachable state the adaptive threshold lies in [1, base], and a closed breaker has fewer failures than
      it, however the threshold moved. */
  lemma {:induction false} AdaptiveInvariant(cfg: Config, start: int, tr: seq<Event>)
    requires cfg.failureThreshold >= 1
    ensures var b := Run(cfg, start, tr);
            && (b.window.Some? <==> cfg.adaptive)
            && (b.window.Some? ==> WindowValid(cfg, b.window.value))
            && b.failures < ThresholdNow(cfg, b)
    decreases |tr|
  {
    if tr != [] {
      var past, e := tr[..|tr| - 1], tr[|tr| - 1];
      AdaptiveInvariant(cfg, start, past);
      var b := Run(cfg, start, past);
      if b.window.Some? && (e.Success? || e.Failure?) {
        RecordedValid(cfg, b.window.value, e.Success?, e.now);
      }
      BreakerFollowsHistory(cfg, start, past);
    }
  }

  ghost predicate IsOutcome(e: Event) { e.Success? || e.Failure? }

  /** When the current adaptive window opened: at the first outcome more than 60_000_000_000 after the previous
      opening. */
  ghost function WindowStart(start: int, tr: seq<Event>): int {
    if tr == [] then start
    else
      var before, e := WindowStart(start, tr[..|tr| - 1]), tr[|tr| - 1];
      if IsOutcome(e) && e.now - before > 60_000_000_000 then e.now else before
  }

  /** Outcomes recorded in the current window, or only the failures among them. */
  ghost function WindowCount(start: int, tr: seq<Event>, failuresOnly: bool): nat {
    if tr == [] then 0
    else
      var past, e := tr[..|tr| - 1], tr[|tr| - 1];
      var kept :=
        if WindowStart(start, tr) != WindowStart(start, past) then 0 else WindowCount(start, past, failuresOnly);
      kept + if e.Failure? || (e.Success? && !failuresOnly) then 1 else 0
  }

  /** The adaptive counters are the window's history, and from the tenth outcome on the threshold is the one its error
      rate calls for. */
  lemma {:induction false} AdaptiveFollowsHistory(cfg: Config, start: int, tr: seq<Event>)
    requires cfg.adaptive
    ensures var w := Run(cfg, start, tr).window;
            && w.Some?
            && w.value.base == cfg.failureThreshold
            && w.value.start == WindowStart(start, tr)
            && w.value.requests == WindowCount(start, tr, false)
            && w.value.failures == WindowCount(start, tr, true)
            && (w.value.requests >= 10 ==>
                  w.value.threshold == Target(w.value.base, w.value.requests, w.value.failures))
    decreases |tr|
  {
    if tr != [] {
      AdaptiveFollowsHistory(cfg, start, tr[..|tr| - 1]);
    }
  }

  /** The bands of the error rate in whole numbers: above one half the base is halved, above three tenths it loses a
      quarter, rounded down but to one at least; otherwise it stays. */
  lemma TargetBands(base: int, requests: int, failures: int)
    requires 1 <= base <= MAX_INT32 && requests > 0 && 0 <= failures <= requests
    ensures Target(base, requests, failures) ==
            if 2 * failures > requests then Max(1, base / 2)
            else if 10 * failures > 3 * requests then Max(1, 3 * base / 4)
            else base
  {
    RateAbove(failures, requests, 0.5);
    RateAbove(failures, requests, 0.3);
    assert (base as real * 0.75).Floor == 3 * base / 4;
  }

  lemma RateAbove(failures: int, requests: int, bound: real)
    requires requests > 0
    ensures failures as real / requests as real > bound <==> failures as real > bound * requests as real
  {
    var rate := failures as real / requests as real;
    assert rate * requests as real == failures as real;
    if rate > bound {
      PositiveProduct(rate - bound, requests as real);
    } else if rate < bound {
      PositiveProduct(bound - rate, requests as real);
    }
  }

  lemma PositiveProduct(x: real, y: real)
    requires x > 0.0 && y > 0.0
    ensures x * y > 0.0
  {
  }

  /** Which jitters some draw yields: zero, and all nanoseconds below a tenth of the timeout. */
  lemma JitterReaches(cfg: Config, j: int)
    ensures (exists draw: nat :: Jitter(cfg, draw) == j) <==> j == 0 || (j > 0 && 10 * (j + 1) <= cfg.openTimeout)
  {
    QuotientLaw(cfg.openTimeout, JITTER_DIVISOR);
    if j == 0 || (j > 0 && 10 * (j + 1) <= cfg.openTimeout) {
      assert Jitter(cfg, j) == j;
    }
  }

  /** A higher error rate never raises the threshold. */
  lemma TargetAntitone(base: int, requests: int, failures: int, requests': int, failures': int)
    requires base >= 1 && requests > 0 && requests' > 0
    requires failures as real / requests as real <= failures' as real / requests' as real
    ensures Target(base, requests', failures') <= Target(base, requests, failures)
  {
  }

  function Max(a: int, b: int): int { if a >= b then a else b }

  /** Counters never go negative or beyond their configured limits, so int32 wrap-around is out of reach for limits that
      fit. */
  lemma {:induction false} CountersInRange(cfg: Config, start: int, tr: seq<Event>)
    requires cfg.failureThreshold >= 1
    ensures var b := Run(cfg, start, tr);
            && 0 <= b.failures < cfg.failureThreshold
            && 0 <= b.successes < Max(1, cfg.successThreshold)
            && 0 <= b.probes <= Max(0, cfg.halfOpenProbes)
    decreases |tr|
  {
    if tr != [] {
      var past := tr[..|tr| - 1];
      CountersInRange(cfg, start, past);
      AdaptiveInvariant(cfg, start, tr);
    }
  }
}
