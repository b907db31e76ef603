/**
 The phases of the rate-limiting middleware under interleaving: requests share one degraded-mode
 flag, which any of them may raise between two phases of another.
 */
module LimiterPhases {

  datatype Config = Config(localEnabled: bool, globalEnabled: bool, requestsPerSecond: int)

  datatype Grant = LocalGrant | GlobalGrant | FallbackGrant

  /** What the script run gives back to the instance. */
  datatype ScriptResult = Admit | Exceeded | Malformed | RedisError | OtherError

  datatype Pc =
    | Arrived
    | ReadFlag            // phase 2 reads the degraded flag
    | Global              // runs the global check
    | RaiseAfterReply     // malformed reply: raises the flag and lets the request go on
    | RaiseAfterError     // Redis failure: raises the flag
    | FallbackAfterError  // local limiting off: the fallback bucket decides at once
    | ReadFlagAgain       // phase 3 reads the flag
    | Fallback
    | Handled
    | Refused

  datatype Request = Request(pc: Pc, grants: seq<Grant>, redisFailed: bool)

  datatype System = System(degraded: bool, requests: seq<Request>)

  /** What the environment decides for one step: a bucket's answer and the script's result. */
  datatype Choice = Choice(hasToken: bool, script: ScriptResult)

  function Act(cfg: Config, degraded: bool, r: Request, ch: Choice): (bool, Request) {
    match r.pc
    case Arrived =>
      if !cfg.localEnabled then (degraded, r.(pc := ReadFlag))
      else if ch.hasToken then (degraded, r.(pc := ReadFlag, grants := r.grants + [LocalGrant]))
      else (degraded, r.(pc := Refused))
    case ReadFlag => (degraded, r.(pc := if cfg.globalEnabled && !degraded then Global else ReadFlagAgain))
    case Global =>
      if cfg.requestsPerSecond < 0 then (degraded, r.(pc := Refused))
      else if cfg.requestsPerSecond == 0 then (degraded, r.(pc := ReadFlagAgain))
      else (match ch.script
            case Admit => (degraded, r.(pc := ReadFlagAgain, grants := r.grants + [GlobalGrant]))
            case Exceeded => (degraded, r.(pc := Refused))
            case Malformed => (degraded, r.(pc := RaiseAfterReply))
            case RedisError => (degraded, r.(pc := RaiseAfterError))
            case OtherError => (degraded, r.(pc := Refused)))
    case RaiseAfterReply => (true, r.(pc := ReadFlagAgain))
    case RaiseAfterError =>
      (true, r.(pc := if cfg.localEnabled then ReadFlagAgain else FallbackAfterError, redisFailed := true))
    case FallbackAfterError =>
      if ch.hasToken then (degraded, r.(pc := ReadFlagAgain, grants := r.grants + [FallbackGrant]))
      else (degraded, r.(pc := Refused))
    case ReadFlagAgain =>
      (degraded, r.(pc := if cfg.globalEnabled && degraded && !cfg.localEnabled then Fallback else Handled))
    case Fallback =>
      if ch.hasToken then (degraded, r.(pc := Handled, grants := r.grants + [FallbackGrant]))
      else (degraded, r.(pc := Refused))
    case Handled => (degraded, r)
    case Refused => (degraded, r)
  }

  /** Runs a schedule of n requests from the given flag; entries naming no request do nothing. */
  function Exec(cfg: Config, degraded: bool, n: nat, schedule: seq<(nat, Choice)>): (s: System)
    ensures |s.requests| == n
  {
    if schedule == [] then System(degraded, seq(n, _ => Request(Arrived, [], false)))
    else
      var s, step := Exec(cfg, degraded, n, schedule[..|schedule| - 1]), schedule[|schedule| - 1];
      if step.0 >= n then s
      else
        var (flag, r) := Act(cfg, s.degraded, s.requests[step.0], step.1);
        System(flag, s.requests[step.0 := r])
  }

  /** Some limit is in force for every request. */
  predicate Protected(cfg: Config) {
    cfg.localEnabled || (cfg.globalEnabled && cfg.requestsPerSecond != 0)
  }

  ghost predicate RequestValid(cfg: Config, degraded: bool, r: Request) {
    && (cfg.localEnabled && !r.pc.Arrived? && !r.pc.Refused? ==> LocalGrant in r.grants)
    && (r.pc.Global? ==> cfg.globalEnabled)
    // The latch: a request that skipped or lost the global check still finds the flag raised.
    && (r.pc.ReadFlagAgain? && !cfg.localEnabled && Protected(cfg) ==> r.grants != [] || degraded)
    && (r.pc.Handled? && Protected(cfg) ==> r.grants != [])
    && (r.redisFailed ==> degraded)
    && (r.redisFailed && !cfg.localEnabled && !r.pc.Refused? ==>
          && cfg.globalEnabled
          && r.grants == match r.pc
               case FallbackAfterError => []
               case Handled => [FallbackGrant, FallbackGrant]
               case _ => [FallbackGrant])
    && (r.redisFailed && !cfg.localEnabled ==>
          r.pc.FallbackAfterError? || r.pc.ReadFlagAgain? || r.pc.Fallback? || r.pc.Handled? || r.pc.Refused?)
    && (!cfg.localEnabled &&
        (r.pc.Arrived? || r.pc.ReadFlag? || r.pc.Global? || r.pc.RaiseAfterReply? || r.pc.RaiseAfterError?) ==>
          r.grants == [] && !r.redisFailed)
    && ((r.pc.RaiseAfterReply? || r.pc.RaiseAfterError?) ==> cfg.globalEnabled)
    && (r.pc.FallbackAfterError? ==> r.redisFailed)
    && (!r.redisFailed && !cfg.localEnabled && (r.pc.ReadFlagAgain? || r.pc.Fallback?) ==> FallbackGrant !in r.grants)
    && (!r.redisFailed && !cfg.localEnabled && r.pc.Handled? ==> r.grants != [FallbackGrant, FallbackGrant])
  }

  lemma ActValid(cfg: Config, degraded: bool, r: Request, ch: Choice)
    requires RequestValid(cfg, degraded, r)
    ensures RequestValid(cfg, Act(cfg, degraded, r, ch).0, Act(cfg, degraded, r, ch).1)
    ensures degraded ==> Act(cfg, degraded, r, ch).0
  {
    if r.grants != [] {
      assert (r.grants + [FallbackGrant])[0] == r.grants[0];
    }
  }

  ghost predicate Valid(cfg: Config, s: System) {
    forall i | 0 <= i < |s.requests| :: RequestValid(cfg, s.degraded, s.requests[i])
  }

  lemma {:induction false} ExecValid(cfg: Config, degraded: bool, n: nat, schedule: seq<(nat, Choice)>)
    ensures Valid(cfg, Exec(cfg, degraded, n, schedule))
  {
    if schedule != [] {
      var past, step := schedule[..|schedule| - 1], schedule[|schedule| - 1];
      ExecValid(cfg, degraded, n, past);
      var s := Exec(cfg, degraded, n, past);
      if step.0 < n {
        ActValid(cfg, s.degraded, s.requests[step.0], step.1);
        var s' := Exec(cfg, degraded, n, schedule);
        forall i | 0 <= i < n ensures RequestValid(cfg, s'.degraded, s'.requests[i]) {
          assert RequestValid(cfg, s.degraded, s.requests[i]);
        }
      }
    }
  }

  /** The degraded flag is a latch: once raised it stays raised. */
  lemma {:induction false} DegradedIsLatched(cfg: Config, degraded: bool, n: nat, schedule: seq<(nat, Choice)>, k: nat)
    requires k <= |schedule| && Exec(cfg, degraded, n, schedule[..k]).degraded
    ensures Exec(cfg, degraded, n, schedule).degraded
    decreases |schedule|
  {
    if k == |schedule| {
      assert schedule[..k] == schedule;
    } else {
      var past, step := schedule[..|schedule| - 1], schedule[|schedule| - 1];
      assert past[..k] == schedule[..k];
      DegradedIsLatched(cfg, degraded, n, past, k);
      if step.0 < n {
        ActLatches(cfg, Exec(cfg, degraded, n, past).requests[step.0], step.1);
      }
    }
  }

  lemma ActLatches(cfg: Config, r: Request, ch: Choice)
    ensures Act(cfg, true, r, ch).0
  {
  }

  /** Some request reaches the handler without any grant. */
  ghost predicate FailsOpen(cfg: Config, degraded: bool, n: nat, schedule: seq<(nat, Choice)>, i: nat) {
    i < n && var r := Exec(cfg, degraded, n, schedule).requests[i]; r.pc.Handled? && r.grants == []
  }

  /** The limiter never fails open, however requests interleave and whoever raises the flag, exactly when local limiting
      is on or a nonzero global limit is. */
  lemma NeverFailsOpen(cfg: Config)
    ensures (forall degraded, n: nat, schedule, i: nat :: !FailsOpen(cfg, degraded, n, schedule, i)) <==> Protected(cfg)
  {
    if Protected(cfg) {
      forall degraded, n: nat, schedule, i: nat ensures !FailsOpen(cfg, degraded, n, schedule, i) {
        ExecValid(cfg, degraded, n, schedule);
      }
    } else {
      OpenRun(cfg);
    }
  }

  /** Every request that reaches the handler of a protected configuration was granted by some limiter. */
  lemma HandledMeansGranted(cfg: Config, degraded: bool, n: nat, schedule: seq<(nat, Choice)>, i: nat)
    requires Protected(cfg) && i < n && Exec(cfg, degraded, n, schedule).requests[i].pc.Handled?
    ensures Exec(cfg, degraded, n, schedule).requests[i].grants != []
    ensures cfg.localEnabled ==> LocalGrant in Exec(cfg, degraded, n, schedule).requests[i].grants
  {
    ExecValid(cfg, degraded, n, schedule);
  }

  /** A handled request was charged two fallback tokens, and nothing else, exactly when local limiting is off and the
      script had failed it: once on the error and once more in the last phase. */
  lemma RedisFailureChargesTwice(cfg: Config, degraded: bool, n: nat, schedule: seq<(nat, Choice)>, i: nat)
    requires i < n && Exec(cfg, degraded, n, schedule).requests[i].pc.Handled?
    ensures var r := Exec(cfg, degraded, n, schedule).requests[i];
            r.grants == [FallbackGrant, FallbackGrant] <==> !cfg.localEnabled && r.redisFailed
  {
    ExecValid(cfg, degraded, n, schedule);
    assert RequestValid(cfg, Exec(cfg, degraded, n, schedule).degraded, Exec(cfg, degraded, n, schedule).requests[i]);
  }

  lemma OpenRun(cfg: Config)
    requires !Protected(cfg)
    ensures exists schedule :: FailsOpen(cfg, false, 1, schedule, 0)
  {
    var step := (0, Choice(false, Exceeded));
    var schedule := [step, step, step, step];
    var r := Request(Arrived, [], false);
    assert schedule[..0] == [] && Exec(cfg, false, 1, schedule[..0]).requests == [r];
    assert schedule[..1][..0] == schedule[..0];
    assert Exec(cfg, false, 1, schedule[..1]) == System(false, [r.(pc := ReadFlag)]);
    assert schedule[..2][..1] == schedule[..1];
    assert Exec(cfg, false, 1, schedule[..2]) ==
           System(false, [r.(pc := if cfg.globalEnabled then Global else ReadFlagAgain)]);
    assert schedule[..3][..2] == schedule[..2];
    assert Exec(cfg, false, 1, schedule[..3]) ==
           System(false, [r.(pc := if cfg.globalEnabled then ReadFlagAgain else Handled)]);
    assert schedule[..3] + [step] == schedule && schedule[..|schedule| - 1] == schedule[..3];
    assert Exec(cfg, false, 1, schedule) == System(false, [r.(pc := Handled)]);
    assert FailsOpen(cfg, false, 1, schedule, 0);
  }

  // ----- what the limiters answered -----

  /** What a request learns in one step: nothing, a token of some kind, or a refusal. */
  datatype Answer = NotAsked | Token(grant: Grant) | Refusal

  /** The answer that waits for a request at the given point: of the local bucket if there is one, of the script if the
      limit lets it run, or of the fallback bucket. A failed or unreadable script run is no answer. */
  function AnswerAt(cfg: Config, pc: Pc, ch: Choice): Answer {
    if pc.Arrived? && cfg.localEnabled then (if ch.hasToken then Token(LocalGrant) else Refusal)
    else if pc.FallbackAfterError? || pc.Fallback? then (if ch.hasToken then Token(FallbackGrant) else Refusal)
    else if pc.Global? && cfg.requestsPerSecond < 0 then Refusal
    else if pc.Global? && cfg.requestsPerSecond > 0 then
      if ch.script.Admit? then Token(GlobalGrant)
      else if ch.script.Exceeded? || ch.script.OtherError? then Refusal
      else NotAsked
    else NotAsked
  }

  /** The answers that request i has received, in order. */
  ghost function Answers(cfg: Config, degraded: bool, n: nat, schedule: seq<(nat, Choice)>, i: nat): seq<Answer>
    requires i < n
  {
    if schedule == [] then []
    else
      var past, step := schedule[..|schedule| - 1], schedule[|schedule| - 1];
      var before := Answers(cfg, degraded, n, past, i);
      if step.0 == i then before + [AnswerAt(cfg, Exec(cfg, degraded, n, past).requests[i].pc, step.1)] else before
  }

  ghost function GrantsOf(answers: seq<Answer>): seq<Grant> {
    if answers == [] then []
    else
      var last := answers[|answers| - 1];
      GrantsOf(answers[..|answers| - 1]) + if last.Token? then [last.grant] else []
  }

  lemma GrantsOfSnoc(answers: seq<Answer>, a: Answer)
    ensures GrantsOf(answers + [a]) == GrantsOf(answers) + if a.Token? then [a.grant] else []
  {
    assert (answers + [a])[..|answers|] == answers;
  }

  /** In every schedule a request's grants are the tokens it was given, in order, and it is refused exactly when some
      limiter refused it; so no request is handled on a refusal. */
  lemma {:induction false} AnswersDecide(cfg: Config, degraded: bool, n: nat, schedule: seq<(nat, Choice)>, i: nat)
    requires i < n
    ensures var r, answers := Exec(cfg, degraded, n, schedule).requests[i], Answers(cfg, degraded, n, schedule, i);
            && r.grants == GrantsOf(answers)
            && (r.pc.Refused? <==> Refusal in answers)
  {
    if schedule != [] {
      var past, step := schedule[..|schedule| - 1], schedule[|schedule| - 1];
      AnswersDecide(cfg, degraded, n, past, i);
      if step.0 == i {
        var s := Exec(cfg, degraded, n, past);
        GrantsOfSnoc(Answers(cfg, degraded, n, past, i), AnswerAt(cfg, s.requests[i].pc, step.1));
        ActAnswers(cfg, s.degraded, s.requests[i], step.1);
      }
    }
  }

  lemma ActAnswers(cfg: Config, degraded: bool, r: Request, ch: Choice)
    ensures var r', answer := Act(cfg, degraded, r, ch).1, AnswerAt(cfg, r.pc, ch);
            && r'.grants == r.grants + (if answer.Token? then [answer.grant] else [])
            && (r'.pc.Refused? <==> r.pc.Refused? || answer.Refusal?)
  {
    assert r.grants + [] == r.grants;
  }

  // ----- one request from start to end -----

  /** What one request meets: the answers of the buckets and the script, and whether others raise the flag before its
      two readings. */
  datatype Environment = Environment(
    localHasToken: bool, script: ScriptResult, fallbackOnError: bool, fallbackLast: bool,
    raisedBeforeGlobal: bool, raisedBeforeLast: bool)

  function ChoiceFor(env: Environment, pc: Pc): Choice {
    Choice(if pc.Arrived? then env.localHasToken
           else if pc.FallbackAfterError? then env.fallbackOnError
           else env.fallbackLast,
           env.script)
  }

  function Next(cfg: Config, env: Environment, x: (bool, Request)): (bool, Request) {
    var pc := x.1.pc;
    var raised := (pc.ReadFlag? && env.raisedBeforeGlobal) || (pc.ReadFlagAgain? && env.raisedBeforeLast);
    Act(cfg, x.0 || raised, x.1, ChoiceFor(env, pc))
  }

  function Iterate(cfg: Config, env: Environment, degraded: bool, n: nat): (bool, Request) {
    if n == 0 then (degraded, Request(Arrived, [], false)) else Next(cfg, env, Iterate(cfg, env, degraded, n - 1))
  }

  /** A request that arrives under the given flag comes to the given point. */
  ghost predicate ComesTo(cfg: Config, env: Environment, degraded: bool, x: (bool, Request)) {
    exists n: nat :: Iterate(cfg, env, degraded, n) == x
  }

  lemma Forward(cfg: Config, env: Environment, degraded: bool, x: (bool, Request))
    requires ComesTo(cfg, env, degraded, x)
    ensures ComesTo(cfg, env, degraded, Next(cfg, env, x))
  {
    var n: nat :| Iterate(cfg, env, degraded, n) == x;
    assert Iterate(cfg, env, degraded, n + 1) == Next(cfg, env, x);
  }

  /** A request that arrives under the given flag ends with the given flag, verdict and grants. */
  ghost predicate EndsAs(cfg: Config, env: Environment, before: bool, after: bool, allowed: bool, grants: seq<Grant>) {
    exists r: Request ::
      ComesTo(cfg, env, before, (after, r)) && r.pc == (if allowed then Handled else Refused) && r.grants == grants
  }

  lemma {:induction false} Settled(cfg: Config, env: Environment, degraded: bool, n: nat, m: nat)
    requires n <= m
    requires Iterate(cfg, env, degraded, n).1.pc.Handled? || Iterate(cfg, env, degraded, n).1.pc.Refused?
    ensures Iterate(cfg, env, degraded, m) == Iterate(cfg, env, degraded, n)
    decreases m
  {
    if n < m {
      Settled(cfg, env, degraded, n, m - 1);
    }
  }

  /** A request ends in one way only, so that `EndsAs` determines flag, verdict and grants. */
  lemma EndIsUnique(cfg: Config, env: Environment, before: bool,
                    after: bool, allowed: bool, grants: seq<Grant>, after': bool, allowed': bool, grants': seq<Grant>)
    requires EndsAs(cfg, env, before, after, allowed, grants) && EndsAs(cfg, env, before, after', allowed', grants')
    ensures after == after' && allowed == allowed' && grants == grants'
  {
    var r: Request :|
      ComesTo(cfg, env, before, (after, r)) && r.pc == (if allowed then Handled else Refused) && r.grants == grants;
    var r': Request :|
      && ComesTo(cfg, env, before, (after', r'))
      && r'.pc == (if allowed' then Handled else Refused) && r'.grants == grants';
    var n: nat :| Iterate(cfg, env, before, n) == (after, r);
    var m: nat :| Iterate(cfg, env, before, m) == (after', r');
    if n <= m {
      Settled(cfg, env, before, n, m);
    } else {
      Settled(cfg, env, before, m, n);
    }
  }

  /** From the global check a request comes to the last phase or is refused, as the script and the fallback bucket say.
      */
  lemma GlobalComesTo(cfg: Config, env: Environment, degraded: bool, x: (bool, Request)) returns (failed: bool)
    requires ComesTo(cfg, env, degraded, x) && x.1.pc.Global?
    ensures var (flag, ok, more) := GlobalOutcome(cfg, env, x.0);
            ComesTo(cfg, env, degraded,
                    (flag, Request(if ok then ReadFlagAgain else Refused, x.1.grants + more, failed)))
  {
    failed := x.1.redisFailed;
    if cfg.requestsPerSecond <= 0 || !(env.script.Malformed? || env.script.RedisError?) {
      AnswerComesTo(cfg, env, degraded, x);
    } else {
      Forward(cfg, env, degraded, x);
      assert x.1.grants + [] == x.1.grants;
      if env.script.Malformed? {
        ReplyComesTo(cfg, env, degraded, Next(cfg, env, x));
      } else {
        ErrorComesTo(cfg, env, degraded, Next(cfg, env, x));
        failed := true;
      }
    }
  }

  /** Without a failure the check decides at once. */
  lemma AnswerComesTo(cfg: Config, env: Environment, degraded: bool, x: (bool, Request))
    requires ComesTo(cfg, env, degraded, x) && x.1.pc.Global?
    requires cfg.requestsPerSecond <= 0 || !(env.script.Malformed? || env.script.RedisError?)
    ensures var (flag, ok, more) := GlobalOutcome(cfg, env, x.0);
            ComesTo(cfg, env, degraded,
                    (flag, Request(if ok then ReadFlagAgain else Refused, x.1.grants + more, x.1.redisFailed)))
  {
    Forward(cfg, env, degraded, x);
    assert x.1.grants + [] == x.1.grants;
  }

  /** After a malformed reply the flag is up and the request goes on. */
  lemma ReplyComesTo(cfg: Config, env: Environment, degraded: bool, x: (bool, Request))
    requires ComesTo(cfg, env, degraded, x) && x.1.pc.RaiseAfterReply?
    ensures ComesTo(cfg, env, degraded, (true, x.1.(pc := ReadFlagAgain)))
  {
    Forward(cfg, env, degraded, x);
  }

  /** After a Redis failure the flag is up, and the fallback bucket decides if local limiting is off. */
  lemma ErrorComesTo(cfg: Config, env: Environment, degraded: bool, x: (bool, Request))
    requires ComesTo(cfg, env, degraded, x) && x.1.pc.RaiseAfterError?
    ensures var ok := cfg.localEnabled || env.fallbackOnError;
            var more := if cfg.localEnabled || !ok then [] else [FallbackGrant];
            ComesTo(cfg, env, degraded, (true, Request(if ok then ReadFlagAgain else Refused, x.1.grants + more, true)))
  {
    var y := Next(cfg, env, x);
    Forward(cfg, env, degraded, x);
    assert x.1.grants + [] == x.1.grants;
    if !cfg.localEnabled {
      Forward(cfg, env, degraded, y);
    }
  }

  /** The flag after the global check, whether the request goes on, and what it was granted. */
  function GlobalOutcome(cfg: Config, env: Environment, degraded: bool): (bool, bool, seq<Grant>) {
    if cfg.requestsPerSecond < 0 then (degraded, false, [])
    else if cfg.requestsPerSecond == 0 then (degraded, true, [])
    else match env.script
      case Admit => (degraded, true, [GlobalGrant])
      case Exceeded => (degraded, false, [])
      case OtherError => (degraded, false, [])
      case Malformed => (true, true, [])
      case RedisError =>
        if cfg.localEnabled then (true, true, [])
        else (true, env.fallbackOnError, if env.fallbackOnError then [FallbackGrant] else [])
  }

  /** The global check lets the request go on. */
  predicate PassesGlobal(cfg: Config, env: Environment) {
    || cfg.requestsPerSecond == 0
    || (cfg.requestsPerSecond > 0
        && (env.script.Admit? || env.script.Malformed?
            || (env.script.RedisError? && (cfg.localEnabled || env.fallbackOnError))))
  }

  predicate RaisesFlag(cfg: Config, env: Environment) {
    cfg.requestsPerSecond > 0 && (env.script.Malformed? || env.script.RedisError?)
  }

  predicate PaysOnError(cfg: Config, env: Environment) {
    cfg.requestsPerSecond > 0 && env.script.RedisError? && !cfg.localEnabled && env.fallbackOnError
  }

  class RateLimitMiddleware {
    const config: Config
    var degraded: bool

    constructor (cfg: Config, degraded: bool)
      ensures config == cfg && this.degraded == degraded
    {
      config := cfg;
      this.degraded := degraded;
    }

    /** The global check, with the fallback bucket after a Redis failure. */
    method HandleGlobalLimit(env: Environment) returns (ok: bool, grants: seq<Grant>)
      modifies this
      ensures (degraded, ok, grants) == GlobalOutcome(config, env, old(degraded))
      ensures ok <==> PassesGlobal(config, env)
      ensures degraded == (old(degraded) || RaisesFlag(config, env))
      ensures GlobalGrant in grants <==> config.requestsPerSecond > 0 && env.script.Admit?
      ensures FallbackGrant in grants <==> PaysOnError(config, env)
      ensures LocalGrant !in grants
    {
      if config.requestsPerSecond < 0 {
        return false, [];
      }
      if config.requestsPerSecond == 0 {
        return true, [];
      }
      match env.script {
        case Admit => return true, [GlobalGrant];
        case Exceeded => return false, [];
        case OtherError => return false, [];
        case Malformed =>
          degraded := true;
          return true, [];
        case RedisError =>
          degraded := true;
          if !config.localEnabled {
            return env.fallbackOnError, if env.fallbackOnError then [FallbackGrant] else [];
          }
          return true, [];
      }
    }

    /** A whole request ends where the phases lead it; with a limit configured it is never allowed without a grant. */
    method Handle(env: Environment) returns (allowed: bool, grants: seq<Grant>)
      modifies this
      ensures EndsAs(config, env, old(degraded), degraded, allowed, grants)
      ensures Protected(config) && allowed ==> grants != []
      ensures old(degraded) ==> degraded
      // in terms of the answers alone
      ensures var local := config.localEnabled ==> env.localHasToken;
              var asks := config.globalEnabled && !old(degraded) && !env.raisedBeforeGlobal;
              var goesOn := local && (asks ==> PassesGlobal(config, env));
              var raises := local && asks && RaisesFlag(config, env);
              var flag := old(degraded) || env.raisedBeforeGlobal || raises || env.raisedBeforeLast;
              var falls := config.globalEnabled && flag && !config.localEnabled;
              && (allowed <==> goesOn && (falls ==> env.fallbackLast))
              && (LocalGrant in grants <==> config.localEnabled && env.localHasToken)
              && (GlobalGrant in grants <==> local && asks && config.requestsPerSecond > 0 && env.script.Admit?)
              && (FallbackGrant in grants <==>
                    (local && asks && PaysOnError(config, env)) || (goesOn && falls && env.fallbackLast))
    {
      ghost var before := degraded;
      ghost var x := (degraded, Request(Arrived, [], false));
      assert Iterate(config, env, before, 0) == x;
      grants := [];
      if config.localEnabled {
        grants := if env.localHasToken then [LocalGrant] else [];
      }
      Forward(config, env, before, x);
      x := Next(config, env, x);
      if config.localEnabled && !env.localHasToken {
        assert x == (degraded, Request(Refused, grants, false));
        return false, grants;
      }
      assert [] + [LocalGrant] == [LocalGrant];
      assert x == (degraded, Request(ReadFlag, grants, false));
      Forward(config, env, before, x);
      x := Next(config, env, x);
      degraded := degraded || env.raisedBeforeGlobal;
      if config.globalEnabled && !degraded {
        assert x == (degraded, Request(Global, grants, false));
        ghost var failed := GlobalComesTo(config, env, before, x);
        var ok, more := HandleGlobalLimit(env);
        grants := grants + more;
        if !ok {
          assert ComesTo(config, env, before, (degraded, Request(Refused, grants, failed)));
          return false, grants;
        }
        x := (degraded, Request(ReadFlagAgain, grants, failed));
      }
      assert x == (degraded, Request(ReadFlagAgain, grants, x.1.redisFailed));
      allowed, grants := LastPhase(env, grants, before, x);
    }

    /** Phase 3: the fallback bucket decides when the flag is up and local limiting is off. */
    method LastPhase(env: Environment, granted: seq<Grant>, ghost before: bool, ghost x: (bool, Request))
      returns (allowed: bool, grants: seq<Grant>)
      requires ComesTo(config, env, before, x)
      requires x == (degraded, Request(ReadFlagAgain, granted, x.1.redisFailed))
      modifies this
      ensures EndsAs(config, env, before, degraded, allowed, grants)
      ensures degraded == (old(degraded) || env.raisedBeforeLast)
      ensures var falls := config.globalEnabled && degraded && !config.localEnabled;
              && allowed == (falls ==> env.fallbackLast)
              && grants == granted + if falls && env.fallbackLast then [FallbackGrant] else []
    {
      ghost var y := Next(config, env, x);
      Forward(config, env, before, x);
      degraded := degraded || env.raisedBeforeLast;
      if config.globalEnabled && degraded && !config.localEnabled {
        Forward(config, env, before, y);
        if !env.fallbackLast {
          assert Next(config, env, y) == (degraded, Request(Refused, granted, y.1.redisFailed));
          return false, granted;
        }
        assert Next(config, env, y) == (degraded, Request(Handled, granted + [FallbackGrant], y.1.redisFailed));
        return true, granted + [FallbackGrant];
      }
      assert y == (degraded, Request(Handled, granted, y.1.redisFailed));
      return true, granted;
    }
  }
}
