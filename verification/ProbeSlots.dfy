/**
 The half-open probe slots under every interleaving of the breaker's atomic operations.
 Each thread runs the middleware's request protocol (allow, optional guard, handle, record,
 clean up) or a manual reset, one atomic load, store, add, swap or compare-and-swap at a time.
 */
module ProbeSlots {
  import opened CircuitBreaker
  import opened Common

  /** Program counters; each names the next atomic operation of its thread. */
  datatype Pc =
    | Idle
    // allow
    | CheckTimeout | SwapHalfOpen | HalfOpenSuccesses | HalfOpenProbes
    | LoadProbes | ClaimProbe(seen: int)
    // handler
    | Calling
    // recordSuccess
    | SuccessState | SuccessFailures | SuccessAdd | SuccessClose | SuccessUndo
    | CloseFailures | CloseSuccesses | CloseProbes
    // recordFailure
    | FailureTime | FailureState | FailureAdd | TripOpen | TripFailures | TripSuccesses
    | ReopenSwap | ReopenFailures | ReopenSuccesses | ReopenProbes
    // deferred cleanup
    | LoadRelease | Release(seen: int)
    // manual reset
    | ResetSwap | ResetFailures | ResetSuccesses | ResetProbes

  /** A slot remembers how many counter resets had happened when it was claimed. */
  datatype Slot = NoSlot | Slot(era: nat)

  datatype Thread = Thread(pc: Pc, slot: Slot)

  /**
   The shared atomics, and three history counters: resets of the probe counter, and since the
   latest reset the slots given back by probes of earlier eras (stale) and the cleanups of
   current probes that found the counter already at zero (idle).
   */
  datatype Shared = Shared(
    state: CircuitState, failures: int, successes: int, lastFailureTime: int, probes: int,
    resets: nat, stale: nat, idle: nat)

  /** What the environment decides for one step: a branch, a time, and the failure threshold in force. */
  datatype Choice = Choice(branch: nat, now: int, draw: nat, threshold: int)

  datatype System = System(shared: Shared, threads: seq<Thread>)

  function ZeroProbes(sh: Shared): Shared {
    sh.(probes := 0, resets := sh.resets + 1, stale := 0, idle := 0)
  }

  /** One atomic operation of one thread. */
  function Act(cfg: Config, sh: Shared, th: Thread, ch: Choice): (Shared, Thread) {
    match th.pc
    case Idle =>
      if ch.branch != 0 then (sh, th.(pc := ResetSwap))
      else (match sh.state
            case Closed => (sh, th.(pc := Calling))
            case Open => (sh, th.(pc := CheckTimeout))
            case HalfOpen => (sh, th.(pc := LoadProbes)))
    case CheckTimeout =>
      if ch.now - sh.lastFailureTime <= cfg.openTimeout + Jitter(cfg, ch.draw) then (sh, th.(pc := Idle))
      else (sh, th.(pc := SwapHalfOpen))
    case SwapHalfOpen =>
      (sh.(state := HalfOpen), th.(pc := if sh.state == HalfOpen then LoadProbes else HalfOpenSuccesses))
    case HalfOpenSuccesses => (sh.(successes := 0), th.(pc := HalfOpenProbes))
    case HalfOpenProbes => (ZeroProbes(sh), th.(pc := LoadProbes))
    case LoadProbes =>
      (sh, th.(pc := if sh.probes >= cfg.halfOpenProbes then Idle else ClaimProbe(sh.probes)))
    case ClaimProbe(seen) =>
      if sh.probes == seen then (sh.(probes := seen + 1), Thread(Calling, Slot(sh.resets)))
      else (sh, th.(pc := LoadProbes))
    case Calling =>
      // A probe whose distributed guard is taken goes straight to its cleanup.
      (sh, th.(pc := if ch.branch == 0 then SuccessState
                     else if ch.branch == 1 || th.slot.NoSlot? then FailureTime
                     else LoadRelease))

    case SuccessState =>
      (sh, th.(pc := match sh.state
                     case Closed => SuccessFailures
                     case HalfOpen => SuccessAdd
                     case Open => LoadRelease))
    case SuccessFailures => (sh.(failures := 0), th.(pc := LoadRelease))
    case SuccessAdd =>
      (sh.(successes := sh.successes + 1),
       th.(pc := if sh.successes + 1 >= cfg.successThreshold then SuccessClose else LoadRelease))
    case SuccessClose =>
      if sh.state == HalfOpen then (sh.(state := Closed), th.(pc := CloseFailures)) else (sh, th.(pc := SuccessUndo))
    case SuccessUndo => (sh.(successes := sh.successes - 1), th.(pc := SuccessState))
    case CloseFailures => (sh.(failures := 0), th.(pc := CloseSuccesses))
    case CloseSuccesses => (sh.(successes := 0), th.(pc := CloseProbes))
    case CloseProbes => (ZeroProbes(sh), th.(pc := LoadRelease))

    case FailureTime => (sh.(lastFailureTime := ch.now), th.(pc := FailureState))
    case FailureState =>
      (sh, th.(pc := match sh.state case Closed => FailureAdd case HalfOpen => ReopenSwap case Open => LoadRelease))
    case FailureAdd =>
      (sh.(failures := sh.failures + 1), th.(pc := if sh.failures + 1 >= ch.threshold then TripOpen else LoadRelease))
    case TripOpen =>
      if sh.state == Closed then (sh.(state := Open), th.(pc := TripFailures)) else (sh, th.(pc := FailureState))
    case TripFailures => (sh.(failures := 0), th.(pc := TripSuccesses))
    case TripSuccesses => (sh.(successes := 0), th.(pc := LoadRelease))
    case ReopenSwap =>
      if sh.state == HalfOpen then (sh.(state := Open), th.(pc := ReopenFailures)) else (sh, th.(pc := FailureState))
    case ReopenFailures => (sh.(failures := 0), th.(pc := ReopenSuccesses))
    case ReopenSuccesses => (sh.(successes := 0), th.(pc := ReopenProbes))
    case ReopenProbes => (ZeroProbes(sh), th.(pc := LoadRelease))

    case LoadRelease =>
      if th.slot.NoSlot? then (sh, th.(pc := Idle))
      else if sh.probes == 0 then
        (if th.slot == Slot(sh.resets) then sh.(idle := sh.idle + 1) else sh, Thread(Idle, NoSlot))
      else (sh, th.(pc := Release(sh.probes)))
    case Release(seen) =>
      if sh.probes == seen then
        (sh.(probes := seen - 1, stale := sh.stale + if th.slot == Slot(sh.resets) then 0 else 1), Thread(Idle, NoSlot))
      else (sh, th.(pc := LoadRelease))

    case ResetSwap =>
      (sh.(state := Closed), th.(pc := if sh.state == Closed then Idle else ResetFailures))
    case ResetFailures => (sh.(failures := 0), th.(pc := ResetSuccesses))
    case ResetSuccesses => (sh.(successes := 0), th.(pc := ResetProbes))
    case ResetProbes => (ZeroProbes(sh), th.(pc := Idle))
  }

  function StepBy(cfg: Config, s: System, i: nat, ch: Choice): System
    requires i < |s.threads|
  {
    var (sh, th) := Act(cfg, s.shared, s.threads[i], ch);
    System(sh, s.threads[i := th])
  }

  /** Runs a schedule; entries naming no thread do nothing. */
  function Exec(cfg: Config, n: nat, schedule: seq<(nat, Choice)>): (s: System)
    ensures |s.threads| == n
  {
    if schedule == [] then
      System(Shared(Closed, 0, 0, 0, 0, 0, 0, 0), seq(n, _ => Thread(Idle, NoSlot)))
    else
      var before, step := Exec(cfg, n, schedule[..|schedule| - 1]), schedule[|schedule| - 1];
      if step.0 < n then StepBy(cfg, before, step.0, step.1) else before
  }

  // ----- counting slots -----

  ghost function InFlight(threads: seq<Thread>): nat {
    if threads == [] then 0
    else InFlight(threads[..|threads| - 1]) + Occupies(threads[|threads| - 1])
  }

  ghost function Occupies(th: Thread): nat { if th.slot.Slot? then 1 else 0 }

  /** In-flight probes whose slot was claimed in the given era. */
  ghost function InFlightOf(threads: seq<Thread>, era: nat): nat {
    if threads == [] then 0
    else InFlightOf(threads[..|threads| - 1], era) + Holds(threads[|threads| - 1], era)
  }

  ghost function Holds(th: Thread, era: nat): nat { if th.slot == Slot(era) then 1 else 0 }

  lemma {:induction false} Replace(threads: seq<Thread>, i: nat, th: Thread, era: nat)
    requires i < |threads|
    ensures InFlightOf(threads[i := th], era) == InFlightOf(threads, era) - Holds(threads[i], era) + Holds(th, era)
    ensures InFlight(threads[i := th]) == InFlight(threads) - Occupies(threads[i]) + Occupies(th)
  {
    var n := |threads| - 1;
    if i == n {
      assert threads[i := th][..n] == threads[..n];
    } else {
      assert threads[i := th][..n] == threads[..n][i := th];
      Replace(threads[..n], i, th, era);
    }
  }

  lemma {:induction false} NoneOf(threads: seq<Thread>, era: nat)
    requires forall j | 0 <= j < |threads| :: threads[j].slot != Slot(era)
    ensures InFlightOf(threads, era) == 0
  {
    if threads != [] {
      NoneOf(threads[..|threads| - 1], era);
    }
  }

  lemma {:induction false} NoSlots(threads: seq<Thread>)
    requires forall j | 0 <= j < |threads| :: threads[j].slot.NoSlot?
    ensures InFlight(threads) == 0
  {
    if threads != [] {
      NoSlots(threads[..|threads| - 1]);
    }
  }

  // ----- the invariant -----

  predicate BeforeClaim(pc: Pc) {
    || pc.Idle? || pc.CheckTimeout? || pc.SwapHalfOpen? || pc.HalfOpenSuccesses? || pc.HalfOpenProbes?
    || pc.LoadProbes? || pc.ClaimProbe? || pc.ResetSwap? || pc.ResetFailures? || pc.ResetSuccesses? || pc.ResetProbes?
  }

  ghost predicate ThreadValid(cfg: Config, resets: nat, th: Thread) {
    && (BeforeClaim(th.pc) ==> th.slot.NoSlot?)
    && (th.slot.Slot? ==> th.slot.era <= resets)
    && (th.pc.ClaimProbe? ==> th.pc.seen < cfg.halfOpenProbes)
    && (th.pc.Release? ==> th.pc.seen != 0 && th.slot.Slot?)
  }

  ghost predicate Valid(cfg: Config, s: System) {
    var sh := s.shared;
    && (forall j | 0 <= j < |s.threads| :: ThreadValid(cfg, sh.resets, s.threads[j]))
    && CounterInRange(cfg, sh)
    && sh.probes <= InFlight(s.threads)
    && InFlightOf(s.threads, sh.resets) + sh.idle == sh.probes + sh.stale
  }

  /** The operations that write the probe counter or release a slot. */
  predicate TouchesSlots(pc: Pc) {
    || pc.HalfOpenProbes? || pc.CloseProbes? || pc.ReopenProbes? || pc.ResetProbes?
    || pc.ClaimProbe? || pc.LoadRelease? || pc.Release?
  }

  lemma QuietAct(cfg: Config, sh: Shared, th: Thread, ch: Choice)
    requires !TouchesSlots(th.pc) && ThreadValid(cfg, sh.resets, th)
    ensures var (sh', th') := Act(cfg, sh, th, ch);
            && ThreadValid(cfg, sh.resets, th') && th'.slot == th.slot
            && (sh'.probes, sh'.resets, sh'.stale, sh'.idle) == (sh.probes, sh.resets, sh.stale, sh.idle)
  {
  }

  ghost predicate CounterInRange(cfg: Config, sh: Shared) {
    0 <= sh.probes && (sh.probes <= cfg.halfOpenProbes || sh.probes == 0)
  }

  /** How one atomic operation moves slots: it either resets the counter or keeps the books balanced. */
  ghost predicate Balanced(sh: Shared, th: Thread, sh': Shared, th': Thread) {
    if sh'.resets != sh.resets then sh' == ZeroProbes(sh) && th'.slot == th.slot
    else
      && Holds(th', sh.resets) - Holds(th, sh.resets) + sh'.idle - sh.idle
           == sh'.probes - sh.probes + sh'.stale - sh.stale
      && (sh'.probes == 0 || sh'.probes - sh.probes == Occupies(th') - Occupies(th))
  }

  lemma ActBalances(cfg: Config, sh: Shared, th: Thread, ch: Choice)
    requires ThreadValid(cfg, sh.resets, th) && CounterInRange(cfg, sh)
    ensures var (sh', th') := Act(cfg, sh, th, ch);
            ThreadValid(cfg, sh'.resets, th') && CounterInRange(cfg, sh') && Balanced(sh, th, sh', th')
  {
    if !TouchesSlots(th.pc) {
      QuietAct(cfg, sh, th, ch);
    }
  }

  lemma StepValid(cfg: Config, s: System, i: nat, ch: Choice)
    requires Valid(cfg, s) && i < |s.threads|
    ensures Valid(cfg, StepBy(cfg, s, i, ch))
  {
    var sh, th := s.shared, s.threads[i];
    var (sh', th') := Act(cfg, sh, th, ch);
    ActBalances(cfg, sh, th, ch);
    Replace(s.threads, i, th', sh.resets);
    Replace(s.threads, i, th', sh'.resets);
    if sh'.resets != sh.resets {
      NoneOf(s.threads, sh'.resets);
    }
  }

  /** Every reachable state is valid, whatever the schedule and the environment do. */
  lemma {:induction false} ExecValid(cfg: Config, n: nat, schedule: seq<(nat, Choice)>)
    ensures Valid(cfg, Exec(cfg, n, schedule))
  {
    var s := Exec(cfg, n, schedule);
    if schedule == [] {
      NoSlots(s.threads);
      NoneOf(s.threads, 0);
    } else {
      var before, step := Exec(cfg, n, schedule[..|schedule| - 1]), schedule[|schedule| - 1];
      ExecValid(cfg, n, schedule[..|schedule| - 1]);
      if step.0 < n {
        StepValid(cfg, before, step.0, step.1);
      }
    }
  }

  /** The counter stays between zero and its limit, never exceeds the probes in flight, and is back to zero when none
      is. */
  lemma SlotCounterBounds(cfg: Config, n: nat, schedule: seq<(nat, Choice)>)
    ensures var s := Exec(cfg, n, schedule);
            && 0 <= s.shared.probes
            && (s.shared.probes <= cfg.halfOpenProbes || s.shared.probes == 0)
            && s.shared.probes <= InFlight(s.threads)
            && (InFlight(s.threads) == 0 ==> s.shared.probes == 0)
  {
    ExecValid(cfg, n, schedule);
  }

  /** Conservation: probes of the current era exceed the counter by exactly the stale releases less the idle cleanups,
      so the limit is exceeded exactly when stale releases outrun idle cleanups and free slots. */
  lemma SlotConservation(cfg: Config, n: nat, schedule: seq<(nat, Choice)>)
    requires cfg.halfOpenProbes >= 0
    ensures var s := Exec(cfg, n, schedule);
            var current := InFlightOf(s.threads, s.shared.resets);
            && current + s.shared.idle == s.shared.probes + s.shared.stale
            && current <= cfg.halfOpenProbes + s.shared.stale
            && (current <= cfg.halfOpenProbes <==>
                  s.shared.stale <= s.shared.idle + (cfg.halfOpenProbes - s.shared.probes))
  {
    ExecValid(cfg, n, schedule);
  }

  // ----- an undisturbed call is the atomic call -----

  /** Where a call pauses or ends: before the handler, before its deferred cleanup, or done. */
  predicate Rests(pc: Pc) { pc.Idle? || pc.Calling? || pc.LoadRelease? }

  ghost function Once(cfg: Config, x: (Shared, Thread), ch: Choice): (Shared, Thread) {
    if Rests(x.1.pc) then x else Act(cfg, x.0, x.1, ch)
  }

  /** The call that starts with the thread's next operation, run undisturbed; no call takes more than seven operations
      to rest. */
  ghost function Call(cfg: Config, sh: Shared, th: Thread, ch: Choice): (Shared, Thread) {
    Rest(cfg, Begin(cfg, sh, th, ch), ch)
  }

  ghost function Begin(cfg: Config, sh: Shared, th: Thread, ch: Choice): (Shared, Thread) {
    Once(cfg, Once(cfg, Act(cfg, sh, th, ch), ch), ch)
  }

  ghost function Rest(cfg: Config, x: (Shared, Thread), ch: Choice): (Shared, Thread) {
    Once(cfg, Once(cfg, Once(cfg, Once(cfg, x, ch), ch), ch), ch)
  }

  /** The breaker, without adaptive window, that the shared atomics amount to. */
  ghost function AsBreaker(sh: Shared): Breaker {
    Breaker(sh.state, sh.failures, sh.successes, sh.lastFailureTime, sh.probes, None)
  }

  /** Run undisturbed, `allow` does what the call-level model says, and a thread holds a slot exactly when it was
      admitted as a probe. */
  lemma UndisturbedAllow(cfg: Config, sh: Shared, ch: Choice)
    requires ch.branch == 0
    ensures var (sh', th') := Call(cfg, sh, Thread(Idle, NoSlot), ch);
            var (b, d) := Allowed(cfg, AsBreaker(sh), ch.now, ch.draw);
            && AsBreaker(sh') == b
            && (th'.pc == if d.Admitted? then Calling else Idle)
            && (th'.slot.Slot? <==> d == Admitted(true))
  {
  }

  /** Run undisturbed, `recordSuccess` does what the call-level model says. */
  lemma UndisturbedSuccess(cfg: Config, sh: Shared, slot: Slot, ch: Choice)
    ensures var (sh', th') := Call(cfg, sh, Thread(SuccessState, slot), ch);
            AsBreaker(sh') == Succeeded(cfg, AsBreaker(sh), ch.now) && th' == Thread(LoadRelease, slot)
  {
  }

  /** Run undisturbed, `recordFailure` does what the call-level model says. */
  lemma UndisturbedFailure(cfg: Config, sh: Shared, slot: Slot, ch: Choice)
    requires ch.threshold == cfg.failureThreshold
    ensures var (sh', th') := Call(cfg, sh, Thread(FailureTime, slot), ch);
            AsBreaker(sh') == Failed(cfg, AsBreaker(sh), ch.now) && th' == Thread(LoadRelease, slot)
  {
    FailureBegins(cfg, sh, slot, ch);
    FailureRests(cfg, FailureBegun(cfg, sh, slot, ch), ch);
  }

  /** After three operations a failure is counted, about to reset the counters of the open state, or done. */
  ghost function FailureBegun(cfg: Config, sh: Shared, slot: Slot, ch: Choice): (Shared, Thread) {
    var sh' := sh.(lastFailureTime := ch.now);
    match sh.state
    case Closed =>
      (sh'.(failures := sh.failures + 1),
       Thread(if sh.failures + 1 >= ch.threshold then TripOpen else LoadRelease, slot))
    case HalfOpen => (sh'.(state := Open), Thread(ReopenFailures, slot))
    case Open => (sh', Thread(LoadRelease, slot))
  }

  lemma FailureBegins(cfg: Config, sh: Shared, slot: Slot, ch: Choice)
    ensures Begin(cfg, sh, Thread(FailureTime, slot), ch) == FailureBegun(cfg, sh, slot, ch)
  {
  }

  lemma FailureRests(cfg: Config, x: (Shared, Thread), ch: Choice)
    requires x.1.pc.LoadRelease? || x.1.pc.ReopenFailures? || (x.1.pc.TripOpen? && x.0.state == Closed)
    ensures Rest(cfg, x, ch).1 == Thread(LoadRelease, x.1.slot)
    ensures AsBreaker(Rest(cfg, x, ch).0) == match x.1.pc
              case TripOpen => AsBreaker(x.0).(state := Open, failures := 0, successes := 0)
              case ReopenFailures => AsBreaker(x.0).(failures := 0, successes := 0, probes := 0)
              case _ => AsBreaker(x.0)
  {
  }

  /** Run undisturbed, a probe's cleanup does what the call-level model says. */
  lemma UndisturbedCleanup(cfg: Config, sh: Shared, era: nat, ch: Choice)
    ensures var (sh', th') := Call(cfg, sh, Thread(LoadRelease, Slot(era)), ch);
            AsBreaker(sh') == Released(AsBreaker(sh)) && th' == Thread(Idle, NoSlot)
  {
  }

  /** Run undisturbed, a manual reset does what the call-level model says. */
  lemma UndisturbedReset(cfg: Config, sh: Shared, ch: Choice)
    ensures var (sh', th') := Call(cfg, sh, Thread(ResetSwap, NoSlot), ch);
            AsBreaker(sh') == Transitioned(AsBreaker(sh), Closed) && th' == Thread(Idle, NoSlot)
  {
  }

  /** Every handled request is recorded, except a probe that the distributed guard kept from the handler; that one goes
      straight to its cleanup. */
  lemma OutcomeIsRecorded(cfg: Config, sh: Shared, slot: Slot, ch: Choice)
    ensures var (sh', th') := Act(cfg, sh, Thread(Calling, slot), ch);
            && sh' == sh && th'.slot == slot
            && (th'.pc.SuccessState? || th'.pc.FailureTime? || (th'.pc.LoadRelease? && slot.Slot?))
  {
  }

  // ----- lost races -----

  /** A thread whose claim fails because the counter moved decides anew, as a call on the present state would. */
  lemma LostClaim(cfg: Config, sh: Shared, seen: int, ch: Choice)
    requires sh.probes != seen
    ensures var (sh', th') := Call(cfg, sh, Thread(ClaimProbe(seen), NoSlot), ch);
            var (b, d) := TakeProbe(cfg, AsBreaker(sh));
            && AsBreaker(sh') == b && (th'.pc == if d.Admitted? then Calling else Idle)
            && (th'.slot.Slot? <==> d.Admitted?)
  {
  }

  /** A cleanup that loses its race gives back one slot of the present counter. */
  lemma LostRelease(cfg: Config, sh: Shared, seen: int, era: nat, ch: Choice)
    requires sh.probes != seen
    ensures var (sh1, th1) := Act(cfg, sh, Thread(Release(seen), Slot(era)), ch);
            var (sh2, th2) := Call(cfg, sh1, th1, ch);
            AsBreaker(sh2) == Released(AsBreaker(sh)) && th2 == Thread(Idle, NoSlot)
  {
  }

  /** A success that met its threshold but finds the breaker no longer half-open takes its count back, and is recorded
      in the present state instead. */
  lemma LostClose(cfg: Config, sh: Shared, slot: Slot, ch: Choice)
    requires sh.state != HalfOpen
    ensures var (sh', th') := Call(cfg, sh, Thread(SuccessClose, slot), ch);
            && AsBreaker(sh') == Succeeded(cfg, AsBreaker(sh).(successes := sh.successes - 1), ch.now)
            && th' == Thread(LoadRelease, slot)
  {
  }

  /** A failure that met its threshold but finds the breaker no longer closed is recorded in the present state; its
      count stays. */
  lemma LostTrip(cfg: Config, sh: Shared, slot: Slot, ch: Choice)
    requires sh.state != Closed && ch.now == sh.lastFailureTime
    ensures var (sh', th') := Call(cfg, sh, Thread(TripOpen, slot), ch);
            AsBreaker(sh') == Failed(cfg, AsBreaker(sh), ch.now) && th' == Thread(LoadRelease, slot)
  {
  }

  /** A failure of a probe that finds the breaker no longer half-open is recorded in the present state. */
  lemma LostReopen(cfg: Config, sh: Shared, slot: Slot, ch: Choice)
    requires sh.state != HalfOpen && ch.now == sh.lastFailureTime && ch.threshold == cfg.failureThreshold
    ensures var (sh', th') := Call(cfg, sh, Thread(ReopenSwap, slot), ch);
            AsBreaker(sh') == Failed(cfg, AsBreaker(sh), ch.now) && th' == Thread(LoadRelease, slot)
  {
  }
}
