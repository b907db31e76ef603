/**
 When the half-open limit holds: stale cleanups can let one more probe in flight than there are
 slots as soon as there is one more thread than slots, and not before.
 */
module ProbeOvershoot {
  import opened CircuitBreaker
  import opened ProbeSlots

  const IDLE := Thread(Idle, NoSlot)

  function At(pc: Pc): Thread { Thread(pc, NoSlot) }

  /** The environment never lowers the configured threshold, as without adaptive thresholds. */
  ghost predicate Fixed(cfg: Config, schedule: seq<(nat, Choice)>) {
    forall k | 0 <= k < |schedule| :: schedule[k].1.threshold == cfg.failureThreshold
  }

  ghost predicate Reachable(cfg: Config, s: System) {
    exists schedule :: Fixed(cfg, schedule) && Exec(cfg, |s.threads|, schedule) == s
  }

  /** Thread i does its next operation, the others as given stay where they are. */
  lemma Go(cfg: Config, sh: Shared, threads: seq<Thread>, i: nat, th: Thread, ch: Choice, sh': Shared, th': Thread)
    requires i < |threads| && Reachable(cfg, System(sh, threads[i := th]))
    requires ch.threshold == cfg.failureThreshold && Act(cfg, sh, th, ch) == (sh', th')
    ensures Reachable(cfg, System(sh', threads[i := th']))
  {
    var n, s := |threads|, System(sh, threads[i := th]);
    var schedule :| Fixed(cfg, schedule) && Exec(cfg, n, schedule) == s;
    var longer := schedule + [(i, ch)];
    assert longer[..|longer| - 1] == schedule;
    assert Exec(cfg, n, longer) == StepBy(cfg, s, i, ch);
    assert threads[i := th][i := th'] == threads[i := th'];
  }

  /** A choice under the configured threshold. */
  function Pick(cfg: Config, branch: nat, now: int): Choice { Choice(branch, now, 0, cfg.failureThreshold) }

  // ----- failures trip the breaker -----

  /** A closed breaker with k failures counted. */
  function Failing(k: nat): Shared { Shared(Closed, k, 0, 0, 0, 0, 0, 0) }

  lemma FailsAgain(cfg: Config, threads: seq<Thread>, k: nat)
    requires threads != [] && threads[0] == IDLE && Reachable(cfg, System(Failing(k), threads))
    ensures Reachable(cfg, System(Failing(k), threads[0 := At(FailureAdd)]))
  {
    var sh := Failing(k);
    assert threads[0 := IDLE] == threads;
    Go(cfg, sh, threads, 0, IDLE, Pick(cfg, 0, 0), sh, At(Calling));
    Go(cfg, sh, threads, 0, At(Calling), Pick(cfg, 1, 0), sh, At(FailureTime));
    Go(cfg, sh, threads, 0, At(FailureTime), Pick(cfg, 0, 0), sh, At(FailureState));
    Go(cfg, sh, threads, 0, At(FailureState), Pick(cfg, 0, 0), sh, At(FailureAdd));
  }

  lemma CountsFailure(cfg: Config, threads: seq<Thread>, k: nat)
    requires threads != [] && threads[0] == IDLE && Reachable(cfg, System(Failing(k), threads))
    requires k + 1 < cfg.failureThreshold
    ensures Reachable(cfg, System(Failing(k + 1), threads))
  {
    FailsAgain(cfg, threads, k);
    Go(cfg, Failing(k), threads, 0, At(FailureAdd), Pick(cfg, 0, 0), Failing(k + 1), At(LoadRelease));
    Go(cfg, Failing(k + 1), threads, 0, At(LoadRelease), Pick(cfg, 0, 0), Failing(k + 1), IDLE);
    assert threads[0 := IDLE] == threads;
  }

  function Idlers(n: nat): seq<Thread> { seq(n, _ => IDLE) }

  lemma {:induction false} FailsOften(cfg: Config, n: nat, k: nat)
    requires n > 0 && (k == 0 || k < cfg.failureThreshold)
    ensures Reachable(cfg, System(Failing(k), Idlers(n)))
  {
    if k == 0 {
      assert Fixed(cfg, []) && Exec(cfg, n, []) == System(Failing(0), Idlers(n));
    } else {
      FailsOften(cfg, n, k - 1);
      CountsFailure(cfg, Idlers(n), k - 1);
    }
  }

  /** An open breaker whose counters are zero. */
  const OPENED := Shared(Open, 0, 0, 0, 0, 0, 0, 0)

  lemma Trips(cfg: Config, n: nat)
    requires n > 0
    ensures Reachable(cfg, System(OPENED, Idlers(n)))
  {
    var k: nat := if cfg.failureThreshold <= 1 then 0 else cfg.failureThreshold - 1;
    var threads, ch := Idlers(n), Pick(cfg, 0, 0);
    FailsOften(cfg, n, k);
    FailsAgain(cfg, threads, k);
    Go(cfg, Failing(k), threads, 0, At(FailureAdd), ch, Failing(k + 1), At(TripOpen));
    TripCompletes(cfg, threads, k + 1);
    assert threads[0 := IDLE] == threads;
  }

  lemma TripCompletes(cfg: Config, threads: seq<Thread>, k: nat)
    requires threads != [] && Reachable(cfg, System(Failing(k), threads[0 := At(TripOpen)]))
    ensures Reachable(cfg, System(OPENED, threads[0 := IDLE]))
  {
    var ch, tripped := Pick(cfg, 0, 0), Failing(k).(state := Open);
    Go(cfg, Failing(k), threads, 0, At(TripOpen), ch, tripped, At(TripFailures));
    Go(cfg, tripped, threads, 0, At(TripFailures), ch, OPENED, At(TripSuccesses));
    TripLeaves(cfg, threads);
  }

  lemma TripLeaves(cfg: Config, threads: seq<Thread>)
    requires threads != [] && Reachable(cfg, System(OPENED, threads[0 := At(TripSuccesses)]))
    ensures Reachable(cfg, System(OPENED, threads[0 := IDLE]))
  {
    var ch := Pick(cfg, 0, 0);
    Go(cfg, OPENED, threads, 0, At(TripSuccesses), ch, OPENED, At(LoadRelease));
    Go(cfg, OPENED, threads, 0, At(LoadRelease), ch, OPENED, IDLE);
  }

  // ----- moves of a half-open breaker -----

  /** A half-open breaker with the given slots taken, resets and stale releases. */
  function Probing(probes: nat, resets: nat, stale: nat): Shared {
    Shared(HalfOpen, 0, 0, 0, probes, resets, stale, 0)
  }

  /** A probe in flight with a slot of the given era. */
  function Probe(era: nat): Thread { Thread(Calling, Slot(era)) }

  /** An idle thread claims a free slot. */
  lemma Claims(cfg: Config, threads: seq<Thread>, i: nat, probes: nat, resets: nat, stale: nat)
    requires i < |threads| && threads[i] == IDLE && probes < cfg.halfOpenProbes
    requires Reachable(cfg, System(Probing(probes, resets, stale), threads))
    ensures Reachable(cfg, System(Probing(probes + 1, resets, stale), threads[i := Probe(resets)]))
  {
    var sh, ch := Probing(probes, resets, stale), Pick(cfg, 0, 0);
    assert threads[i := IDLE] == threads;
    Go(cfg, sh, threads, i, IDLE, ch, sh, At(LoadProbes));
    Go(cfg, sh, threads, i, At(LoadProbes), ch, sh, At(ClaimProbe(probes)));
    Go(cfg, sh, threads, i, At(ClaimProbe(probes)), ch, Probing(probes + 1, resets, stale), Probe(resets));
  }

  /** A probe goes to its cleanup without an outcome, as when the distributed guard is taken. */
  lemma StartsCleanup(cfg: Config, threads: seq<Thread>, i: nat, era: nat, sh: Shared)
    requires i < |threads| && threads[i] == Probe(era) && sh.probes != 0
    requires Reachable(cfg, System(sh, threads))
    ensures Reachable(cfg, System(sh, threads[i := Thread(Release(sh.probes), Slot(era))]))
  {
    var ch, loading := Pick(cfg, 2, 0), Thread(LoadRelease, Slot(era));
    assert threads[i := Probe(era)] == threads;
    Go(cfg, sh, threads, i, Probe(era), ch, sh, loading);
    Go(cfg, sh, threads, i, loading, ch, sh, Thread(Release(sh.probes), Slot(era)));
  }

  /** A probe from before the last reset gives back a slot that is not its own. */
  lemma ReleasesStale(cfg: Config, threads: seq<Thread>, i: nat, era: nat, probes: nat, resets: nat, stale: nat)
    requires i < |threads| && threads[i] == Probe(era) && era != resets && probes > 0
    requires Reachable(cfg, System(Probing(probes, resets, stale), threads))
    ensures Reachable(cfg, System(Probing(probes - 1, resets, stale + 1), threads[i := IDLE]))
  {
    StartsCleanup(cfg, threads, i, era, Probing(probes, resets, stale));
    Go(cfg, Probing(probes, resets, stale), threads, i, Thread(Release(probes), Slot(era)), Pick(cfg, 0, 0),
       Probing(probes - 1, resets, stale + 1), IDLE);
  }

  /** The first thread re-opens the breaker, but is still to reset the slot counter. */
  lemma Reopens(cfg: Config, n: nat)
    requires n > 0
    ensures Reachable(cfg, System(Probing(0, 0, 0), Idlers(n)[0 := At(HalfOpenSuccesses)]))
  {
    var threads, ch := Idlers(n), Pick(cfg, 0, cfg.openTimeout + 1);
    Trips(cfg, n);
    assert threads[0 := IDLE] == threads;
    Go(cfg, OPENED, threads, 0, IDLE, ch, OPENED, At(CheckTimeout));
    assert Jitter(cfg, 0) == 0;
    Go(cfg, OPENED, threads, 0, At(CheckTimeout), ch, OPENED, At(SwapHalfOpen));
    Go(cfg, OPENED, threads, 0, At(SwapHalfOpen), ch, Probing(0, 0, 0), At(HalfOpenSuccesses));
  }

  /** It resets the counter and claims a slot itself. */
  lemma ResetsAndClaims(cfg: Config, threads: seq<Thread>, probes: nat)
    requires threads != [] && cfg.halfOpenProbes >= 1
    requires Reachable(cfg, System(Probing(probes, 0, 0), threads[0 := At(HalfOpenSuccesses)]))
    ensures Reachable(cfg, System(Probing(1, 1, 0), threads[0 := Probe(1)]))
  {
    var sh, ch := Probing(probes, 0, 0), Pick(cfg, 0, 0);
    Go(cfg, sh, threads, 0, At(HalfOpenSuccesses), ch, sh, At(HalfOpenProbes));
    Go(cfg, sh, threads, 0, At(HalfOpenProbes), ch, Probing(0, 1, 0), At(LoadProbes));
    Go(cfg, Probing(0, 1, 0), threads, 0, At(LoadProbes), ch, Probing(0, 1, 0), At(ClaimProbe(0)));
    Go(cfg, Probing(0, 1, 0), threads, 0, At(ClaimProbe(0)), ch, Probing(1, 1, 0), Probe(1));
  }

  // ----- one probe too many -----

  /** The second thread holds a slot from before the reset, the others below j hold current ones. */
  function Filled(n: nat, j: nat): (threads: seq<Thread>)
    ensures |threads| == n
    ensures forall i | 0 <= i < n :: threads[i] == if i == 1 then Probe(0) else if i < j then Probe(1) else IDLE
  {
    seq(n, i => if i == 1 then Probe(0) else if i < j then Probe(1) else IDLE)
  }

  lemma {:induction false} Fills(cfg: Config, n: nat, j: nat)
    requires 2 <= j <= n && j <= cfg.halfOpenProbes + 1
    ensures Reachable(cfg, System(Probing(j - 1, 1, 0), Filled(n, j)))
  {
    if j == 2 {
      Reopens(cfg, n);
      var threads := Idlers(n)[0 := At(HalfOpenSuccesses)];
      Claims(cfg, threads, 1, 0, 0, 0);
      assert threads[1 := Probe(0)] == Idlers(n)[1 := Probe(0)][0 := At(HalfOpenSuccesses)];
      ResetsAndClaims(cfg, Idlers(n)[1 := Probe(0)], 1);
      assert Idlers(n)[1 := Probe(0)][0 := Probe(1)] == Filled(n, 2);
    } else {
      Fills(cfg, n, j - 1);
      Claims(cfg, Filled(n, j - 1), j - 1, j - 2, 1, 0);
      assert Filled(n, j - 1)[j - 1 := Probe(1)] == Filled(n, j);
    }
  }

  /** With more threads than slots: all slots are claimed, the stale release frees one, and it is claimed again. */
  lemma OneTooMany(cfg: Config, n: nat) returns (schedule: seq<(nat, Choice)>)
    requires 1 <= cfg.halfOpenProbes < n
    ensures Fixed(cfg, schedule)
    ensures var s := Exec(cfg, n, schedule);
            && InFlightOf(s.threads, s.shared.resets) == cfg.halfOpenProbes + 1
            && s.shared.stale == 1 && s.shared.idle == 0
  {
    var p := cfg.halfOpenProbes;
    var full := Filled(n, p + 1);
    Fills(cfg, n, p + 1);
    ReleasesStale(cfg, full, 1, 0, p, 1, 0);
    Claims(cfg, full[1 := IDLE], 1, p - 1, 1, 1);
    var s := System(Probing(p, 1, 1), full[1 := IDLE][1 := Probe(1)]);
    schedule :| Fixed(cfg, schedule) && Exec(cfg, n, schedule) == s;
    SlotConservation(cfg, n, schedule);
  }

  /** No more probes than the limit are ever in flight since the last counter reset. */
  ghost predicate KeepsLimit(cfg: Config, n: nat, schedule: seq<(nat, Choice)>) {
    var s := Exec(cfg, n, schedule);
    InFlightOf(s.threads, s.shared.resets) <= cfg.halfOpenProbes
  }

  lemma {:induction false} AtMostAll(threads: seq<Thread>, era: nat)
    ensures InFlightOf(threads, era) <= |threads|
  {
    if threads != [] {
      AtMostAll(threads[..|threads| - 1], era);
    }
  }

  /** The limit on probes in flight holds in every run of n threads exactly when there are no more threads than slots,
      whether the failure threshold is fixed or moves. */
  lemma LimitHoldsExactly(cfg: Config, n: nat)
    requires cfg.halfOpenProbes >= 1
    ensures (forall schedule :: KeepsLimit(cfg, n, schedule)) <==> n <= cfg.halfOpenProbes
    ensures (forall schedule :: Fixed(cfg, schedule) ==> KeepsLimit(cfg, n, schedule)) <==> n <= cfg.halfOpenProbes
  {
    if n <= cfg.halfOpenProbes {
      forall schedule ensures KeepsLimit(cfg, n, schedule) {
        var s := Exec(cfg, n, schedule);
        AtMostAll(s.threads, s.shared.resets);
      }
    } else {
      var schedule := OneTooMany(cfg, n);
      assert !KeepsLimit(cfg, n, schedule);
    }
  }

  /** In particular two threads bring two probes onto a single slot. */
  lemma TwoProbesOnOneSlot() returns (schedule: seq<(nat, Choice)>)
    ensures var cfg := Config(1, 1, 10, 1, false);
            var s := Exec(cfg, 2, schedule);
            && InFlightOf(s.threads, s.shared.resets) == 2
            && s.shared.stale == 1 && s.shared.idle == 0
  {
    schedule := OneTooMany(Config(1, 1, 10, 1, false), 2);
  }
}
