/** The retry loop over an arbitrary handler. Times are nanoseconds since the request arrived. */
module Retry {
  import opened Backoff
  import opened Common
  import Pricing

  datatype Response = Response(totalTokens: int, milliCents: int, body: string)

  /** What the environment does in one attempt: the handler's answer and duration, the random draws, and the wait that
      may follow. */
  datatype Attempt = Attempt(
    response: Option<Response>, error: Option<Error>, duration: nat,
    draw: nat, fallbackDraw: nat,
    cancelled: bool,   // the context ends during the wait
    late: nat)         // how much later than asked the wait ends

  /** Attempt numbers start at 1. */
  type Oracle = nat -> Attempt

  /** The state in which a handler call starts. */
  datatype Start = Start(time: int, costCents: int, tokens: int)

  datatype Result =
    | CancelledBefore
    | Success(response: Option<Response>)
    | Rejected(response: Option<Response>, error: Error)
    | Exhausted(response: Option<Response>, error: Error)
    | OverBudget
    | CancelledDuring
    | NoAttempt

  // ----- accounting -----

  function CostOf(a: Attempt): nat {
    if a.response.Some? then Pricing.BudgetCents(a.response.value.milliCents) else 0
  }

  function TokensOf(a: Attempt): nat {
    if a.response.Some? && a.response.value.totalTokens > 0 then a.response.value.totalTokens else 0
  }

  /** Whole cents that the responses of the first n attempts amount to. */
  function Cents(oracle: Oracle, n: nat): nat {
    if n == 0 then 0 else Cents(oracle, n - 1) + CostOf(oracle(n))
  }

  function TokenSum(oracle: Oracle, n: nat): nat {
    if n == 0 then 0 else TokenSum(oracle, n - 1) + TokensOf(oracle(n))
  }

  /** What a budget records of the first n attempts, if there is one. */
  function Cost(cfg: Config, oracle: Oracle, n: nat): nat {
    if cfg.enableBudget then Cents(oracle, n) else 0
  }

  function Tokens(cfg: Config, oracle: Oracle, n: nat): nat {
    if cfg.enableBudget then TokenSum(oracle, n) else 0
  }

  /** The latest response any of the first n attempts came back with. */
  function LastResponse(oracle: Oracle, n: nat): Option<Response> {
    if n == 0 then None
    else if oracle(n).response.Some? then oracle(n).response
    else LastResponse(oracle, n - 1)
  }

  /** It is the response of the last attempt that had one. */
  lemma {:induction false} LastResponseMeaning(oracle: Oracle, n: nat, r: Response)
    ensures LastResponse(oracle, n) == Some(r) <==>
            exists k: nat :: 1 <= k <= n && LastAt(oracle, n, k) && oracle(k).response == Some(r)
  {
    if n > 0 {
      LastResponseMeaning(oracle, n - 1, r);
      if oracle(n).response.Some? {
        assert LastAt(oracle, n, n);
      } else {
        assert forall k: nat | 1 <= k < n :: LastAt(oracle, n, k) <==> LastAt(oracle, n - 1, k);
      }
    }
  }

  ghost predicate LastAt(oracle: Oracle, n: nat, k: nat) {
    oracle(k).response.Some? && forall j: nat | k < j <= n :: oracle(j).response.None?
  }

  predicate ExceedsBudget(cfg: Config, costCents: int, tokens: int) {
    cfg.enableBudget &&
    ((cfg.maxCostCents > 0 && costCents > cfg.maxCostCents) || (cfg.maxTokens > 0 && tokens > cfg.maxTokens))
  }

  // ----- waiting -----

  predicate TimedOut(cfg: Config, elapsed: int) { cfg.maxElapsedTime > 0 && elapsed > cfg.maxElapsedTime }

  /** A proposed wait after a failed attempt, fitted into the time that is left: a wait that would end past the limit is
      replaced by the unguided delay if the error carried guidance, and by none if that does not fit either. */
  function Fitted(cfg: Config, attempt: nat, elapsed: int, backoff: int, a: Attempt): Option<int>
    requires cfg.Valid() && attempt >= 1 && a.error.Some?
  {
    var pure := Jittered(cfg, Interval(cfg, attempt), a.fallbackDraw);
    if !TimedOut(cfg, elapsed + backoff) then Some(backoff)
    else if ExtractRetryAfter(a.error.value) > 0 && !TimedOut(cfg, elapsed + pure) then Some(pure)
    else None
  }

  /** The wait after a failed attempt, or none if it would end past the time limit. */
  function Wait(cfg: Config, attempt: nat, elapsed: int, a: Attempt): Option<int>
    requires cfg.Valid() && attempt >= 1 && a.error.Some?
  {
    var retryAfter := ExtractRetryAfter(a.error.value);
    var asked := if retryAfter > 0 then retryAfter else Jittered(cfg, Interval(cfg, attempt), a.draw);
    Fitted(cfg, attempt, elapsed, asked, a)
  }

  /** A wait is never negative and never planned past the limit; there is none only if a limit is set and even the
      unguided delay would pass it. */
  lemma WaitFits(cfg: Config, attempt: nat, elapsed: int, a: Attempt)
    requires cfg.Valid() && attempt >= 1 && a.error.Some?
    ensures var wait := Wait(cfg, attempt, elapsed, a);
            && (wait.Some? ==> wait.value >= 0 && !TimedOut(cfg, elapsed + wait.value))
            && (wait.None? ==> TimedOut(cfg, elapsed + Interval(cfg, attempt)))
  {
  }

  /** The wait in numbers: without a time limit, or as far as it ends within it, the delay the error asks for is kept,
      and an unguided delay is one of the jittered interval. */
  lemma WaitInNumbers(cfg: Config, attempt: nat, elapsed: int, a: Attempt)
    requires cfg.Valid() && attempt >= 1 && a.error.Some?
    ensures var asked, wait := ExtractRetryAfter(a.error.value), Wait(cfg, attempt, elapsed, a);
            && (asked > 0 && (cfg.maxElapsedTime == 0 || elapsed + asked <= cfg.maxElapsedTime) ==> wait == Some(asked))
            && (wait.Some? && wait.value != asked ==> 0 <= wait.value <= Interval(cfg, attempt))
            && (wait.Some? && wait.value != asked && !cfg.useJitter ==> wait.value == Interval(cfg, attempt))
            && (wait.None? ==> cfg.maxElapsedTime > 0 && elapsed + Interval(cfg, attempt) > cfg.maxElapsedTime)
            && (wait.Some? && cfg.maxElapsedTime > 0 ==> elapsed + wait.value <= cfg.maxElapsedTime)
  {
  }

  predicate Retryable(a: Attempt) { a.error.Some? && IsRetryable(a.error.value) }

  // ----- what a run looks like -----

  /** Attempt k + 1 may start like this: in time, within budget, on the sums of the first k attempts. */
  ghost predicate StartsWell(cfg: Config, oracle: Oracle, k: nat, start: Start) {
    && !TimedOut(cfg, start.time)
    && !ExceedsBudget(cfg, start.costCents, start.tokens)
    && start.costCents == Cost(cfg, oracle, k) && start.tokens == Tokens(cfg, oracle, k)
  }

  /** Attempt k, started at `time`, failed retryably, and the loop goes on at `next` after the planned wait, during
      which the context did not end. */
  ghost predicate Continues(cfg: Config, oracle: Oracle, k: nat, time: int, next: int)
    requires cfg.Valid() && k >= 1
  {
    && Retryable(oracle(k)) && !oracle(k).cancelled
    && var wait := Wait(cfg, k, time + oracle(k).duration, oracle(k));
       wait.Some? && next == time + oracle(k).duration + wait.value + oracle(k).late
  }

  ghost predicate Run(cfg: Config, oracle: Oracle, log: seq<Start>)
    requires cfg.Valid()
  {
    && (forall k: nat | k < |log| :: StartsWell(cfg, oracle, k, log[k]))
    && (forall k: nat | 1 <= k < |log| :: Continues(cfg, oracle, k, log[k - 1].time, log[k].time))
    && (log != [] ==> log[0].time == 0)
  }

  lemma RunSnoc(cfg: Config, oracle: Oracle, log: seq<Start>, start: Start)
    requires cfg.Valid() && Run(cfg, oracle, log) && StartsWell(cfg, oracle, |log|, start)
    requires if log == [] then start.time == 0 else Continues(cfg, oracle, |log|, log[|log| - 1].time, start.time)
    ensures Run(cfg, oracle, log + [start])
  {
  }

  /** What a result says about the last of n attempts, which returned at the given time. */
  ghost predicate Explains(cfg: Config, oracle: Oracle, result: Result, n: nat, maxAttempts: nat, returned: int)
    requires cfg.Valid() && n >= 1
  {
    match result
    case Success(response) => oracle(n).error.None? && response == oracle(n).response
    case Rejected(response, error) =>
      oracle(n).error == Some(error) && !IsRetryable(error) && response == LastResponse(oracle, n)
    case CancelledDuring =>
      Retryable(oracle(n)) && n < maxAttempts && Wait(cfg, n, returned, oracle(n)).Some? && oracle(n).cancelled
    case _ => false
  }

  /** The last of n attempts failed retryably, and no other will follow: it was the last one allowed, or no wait
      fits. */
  ghost predicate GivesUp(cfg: Config, oracle: Oracle, n: nat, maxAttempts: nat, returned: int)
    requires cfg.Valid() && n >= 1
  {
    Retryable(oracle(n)) && (n == maxAttempts || Wait(cfg, n, returned, oracle(n)).None?)
  }

  /** How a run ends: with its last attempt, at the time that returned, or where another attempt would have started. */
  ghost predicate Ends(cfg: Config, oracle: Oracle, result: Result, log: seq<Start>, maxAttempts: nat, finish: int)
    requires cfg.Valid()
  {
    if log == [] then result.CancelledBefore? && finish == 0
    else
      var n, last := |log|, log[|log| - 1].time;
      var returned := last + oracle(n).duration;
      match result
      case OverBudget =>
        && n < maxAttempts && Continues(cfg, oracle, n, last, finish) && !TimedOut(cfg, finish)
        && ExceedsBudget(cfg, Cost(cfg, oracle, n), Tokens(cfg, oracle, n))
      case Exhausted(response, error) =>
        && oracle(n).error == Some(error) && response == LastResponse(oracle, n)
        && ((finish == returned && GivesUp(cfg, oracle, n, maxAttempts, returned))
            || (n < maxAttempts && Continues(cfg, oracle, n, last, finish) && TimedOut(cfg, finish)))
      case _ => finish == returned && Explains(cfg, oracle, result, n, maxAttempts, returned)
  }

  /** After one attempt the loop stops with a result or goes on. */
  datatype Next = Stop(result: Result) | Go

  class RetryMiddleware {
    const config: Config
    var totalAttempts: int
    var successfulRetries: int
    var failedRetries: int
    var successfulFirstAttempts: int
    var totalCostCents: int
    var totalTokens: int
    var budgetExceeded: int

    constructor (cfg: Config)
      requires cfg.Valid()
      ensures config == cfg
      ensures totalAttempts == successfulRetries == failedRetries == successfulFirstAttempts == 0
      ensures totalCostCents == totalTokens == budgetExceeded == 0
    {
      config := cfg;
      totalAttempts, successfulRetries, failedRetries, successfulFirstAttempts := 0, 0, 0, 0;
      totalCostCents, totalTokens, budgetExceeded := 0, 0, 0;
    }

    method ValidateBackoffWithTimeout(backoff: int, elapsed: int, attempt: int, a: Attempt)
      returns (adjusted: int, ok: bool)
      requires config.Valid() && attempt >= 1 && a.error.Some?
      ensures (if ok then Some(adjusted) else None) == Fitted(config, attempt, elapsed, backoff, a)
      ensures ok ==> !TimedOut(config, elapsed + adjusted)
      ensures !TimedOut(config, elapsed + backoff) ==> ok && adjusted == backoff
    {
      if config.maxElapsedTime <= 0 {
        return backoff, true;
      }
      if elapsed + backoff <= config.maxElapsedTime {
        return backoff, true;
      }
      var retryAfter := ExtractRetryAfter(a.error.value);
      if retryAfter > 0 {
        var exponential := CalculatePureExponentialBackoff(config, attempt, a.fallbackDraw);
        if elapsed + exponential <= config.maxElapsedTime {
          return exponential, true;
        }
      }
      return 0, false;
    }

    /** The backoff for the failed attempt, fitted into the time that is left. */
    method PlanWait(attempt: int, elapsed: int, a: Attempt) returns (wait: Option<int>)
      requires config.Valid() && attempt >= 1 && a.error.Some?
      ensures wait == Wait(config, attempt, elapsed, a)
    {
      var backoff := CalculateBackoff(config, attempt, a.error.value, a.draw);
      var adjusted, ok := ValidateBackoffWithTimeout(backoff, elapsed, attempt, a);
      return if ok then Some(adjusted) else None;
    }

    /** Adds the tokens and the whole cents of one response to the running sums. */
    method UpdateBudgetFromResponse(costCents: int, tokens: int, response: Response) returns (cost': int, tokens': int)
      modifies this`totalCostCents, this`totalTokens
      ensures cost' == costCents + Pricing.BudgetCents(response.milliCents)
      ensures tokens' == tokens + if response.totalTokens > 0 then response.totalTokens else 0
      ensures totalCostCents - old(totalCostCents) == cost' - costCents
      ensures totalTokens - old(totalTokens) == tokens' - tokens
    {
      cost', tokens' := costCents, tokens;
      if response.totalTokens > 0 {
        tokens' := tokens + response.totalTokens;
        totalTokens := totalTokens + response.totalTokens;
      }
      if response.milliCents > 0 {
        var cents := response.milliCents / Pricing.MILLI_CENTS_PER_CENT;
        cost' := costCents + cents;
        totalCostCents := totalCostCents + cents;
      }
    }

    method CountSuccess(attempt: int)
      modifies this`successfulRetries, this`successfulFirstAttempts
      ensures successfulRetries == old(successfulRetries) + if attempt > 1 then 1 else 0
      ensures successfulFirstAttempts == old(successfulFirstAttempts) + if attempt > 1 then 0 else 1
    {
      if attempt > 1 {
        successfulRetries := successfulRetries + 1;
      } else {
        successfulFirstAttempts := successfulFirstAttempts + 1;
      }
    }

    /** Counts one handler call and books its response. */
    method Book(a: Attempt, costCents: int, tokens: int) returns (cost': int, tokens': int)
      modifies this`totalAttempts, this`totalCostCents, this`totalTokens
      ensures totalAttempts == old(totalAttempts) + 1
      ensures cost' == costCents + if config.enableBudget then CostOf(a) else 0
      ensures tokens' == tokens + if config.enableBudget then TokensOf(a) else 0
      ensures totalCostCents - old(totalCostCents) == cost' - costCents
      ensures totalTokens - old(totalTokens) == tokens' - tokens
    {
      totalAttempts := totalAttempts + 1;
      cost', tokens' := costCents, tokens;
      if config.enableBudget && a.response.Some? {
        cost', tokens' := UpdateBudgetFromResponse(costCents, tokens, a.response.value);
      }
    }

    /** One pass of the loop from the handler call on; the log ends with its start. */
    method Try(oracle: Oracle, attempt: nat, maxAttempts: nat, time: int, costCents: int, tokens: int,
               lastResp: Option<Response>, ghost log: seq<Start>)
      returns (next: Next, finish: int, costCents': int, tokens': int, lastResp': Option<Response>)
      requires config.Valid() && 1 <= attempt <= maxAttempts
      requires |log| == attempt && log[attempt - 1].time == time
      requires lastResp == LastResponse(oracle, attempt - 1)
      requires costCents == Cost(config, oracle, attempt - 1) && tokens == Tokens(config, oracle, attempt - 1)
      modifies this`totalAttempts, this`totalCostCents, this`totalTokens,
               this`successfulRetries, this`successfulFirstAttempts
      ensures lastResp' == LastResponse(oracle, attempt)
      ensures costCents' == Cost(config, oracle, attempt) && tokens' == Tokens(config, oracle, attempt)
      ensures next.Go? ==> attempt < maxAttempts && Continues(config, oracle, attempt, time, finish)
      ensures next.Stop? ==> Ends(config, oracle, next.result, log, maxAttempts, finish)
      ensures totalAttempts == old(totalAttempts) + 1
      ensures totalCostCents - old(totalCostCents) == costCents' - costCents
      ensures totalTokens - old(totalTokens) == tokens' - tokens
      ensures var success := next.Stop? && next.result.Success?;
              && successfulFirstAttempts == old(successfulFirstAttempts) + (if success && attempt == 1 then 1 else 0)
              && successfulRetries == old(successfulRetries) + if success && attempt > 1 then 1 else 0
    {
      var outcome := oracle(attempt);
      finish := time + outcome.duration;
      costCents', tokens' := Book(outcome, costCents, tokens);
      lastResp' := lastResp;
      if outcome.response.Some? {
        lastResp' := outcome.response;
      }
      if outcome.error.None? {
        CountSuccess(attempt);
        next := Stop(Success(outcome.response));
        return;
      }
      if !IsRetryable(outcome.error.value) {
        next := Stop(Rejected(lastResp', outcome.error.value));
        return;
      }
      next := Stop(Exhausted(lastResp', outcome.error.value));
      if attempt == maxAttempts {
        return;
      }
      var wait := PlanWait(attempt, finish, outcome);
      if wait.None? {
        return;
      }
      if outcome.cancelled {
        next := Stop(CancelledDuring);
        return;
      }
      next := Go;
      finish := finish + wait.value + outcome.late;
    }

    /**
     One request. `probe` says that the context marks a half-open probe, `cancelled` that it has
     ended already. The log holds the state at the start of every handler call.
     */
    method Handle(oracle: Oracle, probe: bool, cancelled: bool) returns (result: Result, log: seq<Start>, finish: int)
      requires config.Valid()
      modifies this
      ensures |log| <= if probe then 1 else config.maxAttempts
      ensures Run(config, oracle, log)
      ensures cancelled <==> result.CancelledBefore?
      ensures Ends(config, oracle, result, log, if probe then 1 else config.maxAttempts, finish)
      // in particular the budget stops every run that would go on over budget
      ensures forall next: int ::
                log != [] && |log| < (if probe then 1 else config.maxAttempts)
                && Continues(config, oracle, |log|, log[|log| - 1].time, next) && !TimedOut(config, next)
                && ExceedsBudget(config, Cost(config, oracle, |log|), Tokens(config, oracle, |log|))
                ==> result.OverBudget?
      // statistics
      ensures totalAttempts == old(totalAttempts) + |log|
      ensures totalCostCents == old(totalCostCents) + Cost(config, oracle, |log|)
      ensures totalTokens == old(totalTokens) + Tokens(config, oracle, |log|)
      ensures successfulFirstAttempts == old(successfulFirstAttempts) + if result.Success? && |log| == 1 then 1 else 0
      ensures successfulRetries == old(successfulRetries) + if result.Success? && |log| > 1 then 1 else 0
      ensures failedRetries == old(failedRetries) + if result.Exhausted? then 1 else 0
      ensures budgetExceeded == old(budgetExceeded) + if result.OverBudget? then 1 else 0
    {
      if cancelled {
        return CancelledBefore, [], 0;
      }
      var maxAttempts := if probe then 1 else config.maxAttempts;
      result, log, finish := Attempts(oracle, maxAttempts);
      match result {
        case Exhausted(_, _) => failedRetries := failedRetries + 1;
        case OverBudget => budgetExceeded := budgetExceeded + 1;
        case _ =>
      }
      OverBudgetStops(config, oracle, result, log, maxAttempts, finish);
    }

    /** The attempts of a request whose context has not ended. */
    method Attempts(oracle: Oracle, maxAttempts: nat) returns (result: Result, log: seq<Start>, finish: int)
      requires config.Valid() && maxAttempts > 0
      modifies this`totalAttempts, this`totalCostCents, this`totalTokens,
               this`successfulRetries, this`successfulFirstAttempts
      ensures 0 < |log| <= maxAttempts && Run(config, oracle, log)
      ensures Ends(config, oracle, result, log, maxAttempts, finish)
      ensures totalAttempts == old(totalAttempts) + |log|
      ensures totalCostCents == old(totalCostCents) + Cost(config, oracle, |log|)
      ensures totalTokens == old(totalTokens) + Tokens(config, oracle, |log|)
      ensures successfulFirstAttempts == old(successfulFirstAttempts) + if result.Success? && |log| == 1 then 1 else 0
      ensures successfulRetries == old(successfulRetries) + if result.Success? && |log| > 1 then 1 else 0
    {
      log, finish := [], 0;
      var costCents, tokens, lastResp := 0, 0, None;
      var lastErr: Option<Error> := None;
      var attempt := 1;
      while attempt <= maxAttempts
        invariant 1 <= attempt <= maxAttempts && |log| == attempt - 1
        invariant Run(config, oracle, log)
        invariant log == [] ==> finish == 0 && lastErr.None?
        invariant log != [] ==>
          lastErr == oracle(|log|).error && Continues(config, oracle, |log|, log[|log| - 1].time, finish)
        invariant lastResp == LastResponse(oracle, |log|)
        invariant costCents == Cost(config, oracle, |log|) && tokens == Tokens(config, oracle, |log|)
        invariant totalAttempts == old(totalAttempts) + |log|
        invariant totalCostCents == old(totalCostCents) + costCents
        invariant totalTokens == old(totalTokens) + tokens
        invariant successfulFirstAttempts == old(successfulFirstAttempts) && successfulRetries == old(successfulRetries)
        decreases maxAttempts - attempt
      {
        if TimedOut(config, finish) {
          break;
        }
        if ExceedsBudget(config, costCents, tokens) {
          return OverBudget, log, finish;
        }
        var start := Start(finish, costCents, tokens);
        RunSnoc(config, oracle, log, start);
        log := log + [start];
        var next;
        next, finish, costCents, tokens, lastResp :=
          Try(oracle, attempt, maxAttempts, finish, costCents, tokens, lastResp, log);
        if next.Stop? {
          return next.result, log, finish;
        }
        lastErr := oracle(attempt).error;
        attempt := attempt + 1;
      }
      if lastErr.Some? {
        return Exhausted(lastResp, lastErr.value), log, finish;
      }
      return NoAttempt, log, finish;
    }
  }

  /** A run that would go on in time, with attempts left, but over budget, can only end as over budget. */
  lemma OverBudgetStops(cfg: Config, oracle: Oracle, result: Result, log: seq<Start>, maxAttempts: nat, finish: int)
    requires cfg.Valid() && log != [] && Ends(cfg, oracle, result, log, maxAttempts, finish)
    ensures forall next: int ::
              |log| < maxAttempts
              && Continues(cfg, oracle, |log|, log[|log| - 1].time, next) && !TimedOut(cfg, next)
              && ExceedsBudget(cfg, Cost(cfg, oracle, |log|), Tokens(cfg, oracle, |log|))
              ==> result.OverBudget?
  {
  }

  // ----- the contract determines the run -----

  /** Two runs of one handler agree as far as both go. */
  lemma {:induction false} RunsAgree(cfg: Config, oracle: Oracle, a: seq<Start>, b: seq<Start>, k: nat)
    requires cfg.Valid() && Run(cfg, oracle, a) && Run(cfg, oracle, b) && k < |a| && k < |b|
    ensures a[k] == b[k]
  {
    assert StartsWell(cfg, oracle, k, a[k]) && StartsWell(cfg, oracle, k, b[k]);
    if k > 0 {
      RunsAgree(cfg, oracle, a, b, k - 1);
      assert Continues(cfg, oracle, k, a[k - 1].time, a[k].time);
      assert Continues(cfg, oracle, k, b[k - 1].time, b[k].time);
    }
  }

  lemma RunStep(cfg: Config, oracle: Oracle, log: seq<Start>, k: nat)
    requires cfg.Valid() && Run(cfg, oracle, log) && 1 <= k < |log|
    ensures StartsWell(cfg, oracle, k, log[k]) && Continues(cfg, oracle, k, log[k - 1].time, log[k].time)
  {
  }

  /** A run that ends cannot also go on. */
  lemma NoEarlyEnd(cfg: Config, oracle: Oracle, a: seq<Start>, b: seq<Start>, maxAttempts: nat,
                   result: Result, finish: int)
    requires cfg.Valid() && Run(cfg, oracle, a) && Run(cfg, oracle, b)
    requires a != [] && |b| <= maxAttempts && Ends(cfg, oracle, result, a, maxAttempts, finish)
    ensures |b| <= |a|
  {
    if |a| < |b| {
      var n := |a|;
      RunsAgree(cfg, oracle, a, b, n - 1);
      RunStep(cfg, oracle, b, n);
    }
  }

  /** Handler, limits and configuration leave one outcome only: which attempts are made, when each starts and with what
      sums, how the run ends, and when. */
  lemma OutcomeUnique(cfg: Config, oracle: Oracle, maxAttempts: nat, a: seq<Start>, b: seq<Start>,
                      result: Result, result': Result, finish: int, finish': int)
    requires cfg.Valid() && Run(cfg, oracle, a) && Run(cfg, oracle, b) && |a| <= maxAttempts && |b| <= maxAttempts
    requires Ends(cfg, oracle, result, a, maxAttempts, finish) && Ends(cfg, oracle, result', b, maxAttempts, finish')
    requires result.CancelledBefore? <==> result'.CancelledBefore?
    ensures a == b && result == result' && finish == finish'
  {
    if a != [] && b != [] {
      NoEarlyEnd(cfg, oracle, a, b, maxAttempts, result, finish);
      NoEarlyEnd(cfg, oracle, b, a, maxAttempts, result', finish');
      forall k: nat | k < |a| ensures a[k] == b[k] {
        RunsAgree(cfg, oracle, a, b, k);
      }
      assert a == b;
    }
  }

  /** The loop gives up on a retryable error before the last attempt allowed only because of the time limit: even the
      unguided interval would pass it, or a late wait has. */
  lemma GivingUpEarly(cfg: Config, oracle: Oracle, log: seq<Start>, maxAttempts: nat, result: Result, finish: int)
    requires cfg.Valid() && Run(cfg, oracle, log) && |log| < maxAttempts && result.Exhausted?
    requires Ends(cfg, oracle, result, log, maxAttempts, finish)
    ensures log != [] && cfg.maxElapsedTime > 0 && finish + Interval(cfg, |log|) > cfg.maxElapsedTime
  {
    WaitInNumbers(cfg, |log|, log[|log| - 1].time + oracle(|log|).duration, oracle(|log|));
  }

  // ----- consequences for every run -----

  /** Waiting keeps within the limit, so a run outlasts it by at most one handler call and one late timer. */
  lemma RunDuration(cfg: Config, oracle: Oracle, log: seq<Start>, finish: int)
    requires cfg.Valid() && cfg.maxElapsedTime > 0 && log != [] && Run(cfg, oracle, log)
    requires var last := log[|log| - 1].time;
             finish == last + oracle(|log|).duration || Continues(cfg, oracle, |log|, last, finish)
    ensures finish <= cfg.maxElapsedTime + oracle(|log|).duration + oracle(|log|).late
  {
    assert StartsWell(cfg, oracle, |log| - 1, log[|log| - 1]);
  }

  /** With a budget on, the cents recorded by a whole run exceed the limit by at most its last attempt, and likewise the
      tokens. */
  lemma OvershootIsOneAttempt(cfg: Config, oracle: Oracle, log: seq<Start>)
    requires cfg.Valid() && cfg.enableBudget && log != [] && Run(cfg, oracle, log)
    ensures cfg.maxCostCents > 0 ==> Cost(cfg, oracle, |log|) <= cfg.maxCostCents + CostOf(oracle(|log|))
    ensures cfg.maxTokens > 0 ==> Tokens(cfg, oracle, |log|) <= cfg.maxTokens + TokensOf(oracle(|log|))
  {
    assert StartsWell(cfg, oracle, |log| - 1, log[|log| - 1]);
  }

  /** Attempts never overlap: each starts after the one before returned. */
  lemma AttemptsDoNotOverlap(cfg: Config, oracle: Oracle, log: seq<Start>, k: nat)
    requires cfg.Valid() && Run(cfg, oracle, log) && 1 <= k < |log|
    ensures log[k].time >= log[k - 1].time + oracle(k).duration
    ensures Retryable(oracle(k))
  {
    assert Continues(cfg, oracle, k, log[k - 1].time, log[k].time);
    WaitFits(cfg, k, log[k - 1].time + oracle(k).duration, oracle(k));
  }

  // ----- exact spending -----

  /** What each attempt that came back with a response is priced at; failed attempts may come back with none. */
  type Prices = nat -> Pricing.Priced

  /** The responses of the first n attempts, as far as there are any, carry the estimates of the given prices. */
  ghost predicate PricedBy(oracle: Oracle, prices: Prices, n: nat) {
    forall k: nat | 1 <= k <= n && oracle(k).response.Some? :: PricedAs(oracle(k).response.value, prices(k))
  }

  ghost predicate PricedAs(r: Response, p: Pricing.Priced) {
    r.milliCents == Pricing.Calculate(p.entry, p.usage)
  }

  /** The exact cost of the first n attempts, in thousandths of a milli-cent. */
  ghost function Spent(oracle: Oracle, prices: Prices, n: nat): nat {
    if n == 0 then 0
    else Spent(oracle, prices, n - 1) + if oracle(n).response.Some? then Pricing.Exact(prices(n)) else 0
  }

  ghost function Responses(oracle: Oracle, n: nat): (r: nat)
    ensures r <= n
  {
    if n == 0 then 0 else Responses(oracle, n - 1) + if oracle(n).response.Some? then 1 else 0
  }

  /** Each response makes the recorded cents fall short of the exact cost by at most the largest loss. */
  lemma {:induction false} SpendingIsRecorded(cfg: Config, oracle: Oracle, prices: Prices, n: nat)
    requires cfg.enableBudget && PricedBy(oracle, prices, n)
    ensures 0 <= Spent(oracle, prices, n) - 1_000_000 * Cost(cfg, oracle, n) <= Pricing.MAX_LOSS * Responses(oracle, n)
  {
    if n > 0 {
      SpendingIsRecorded(cfg, oracle, prices, n - 1);
      if oracle(n).response.Some? {
        assert PricedAs(oracle(n).response.value, prices(n));
        Pricing.AttemptLoss(prices(n));
      }
    }
  }

  /** End to end: all attempts of a run but the last cost together at most the cent limit, plus less than 1001
      milli-cents that rounding hides for each of them that came back with a response. */
  lemma ExactSpendingIsBounded(cfg: Config, oracle: Oracle, log: seq<Start>, prices: Prices)
    requires cfg.Valid() && cfg.enableBudget && cfg.maxCostCents > 0 && log != [] && Run(cfg, oracle, log)
    requires PricedBy(oracle, prices, |log| - 1)
    ensures Spent(oracle, prices, |log| - 1) <=
            1_000_000 * cfg.maxCostCents + Pricing.MAX_LOSS * Responses(oracle, |log| - 1)
  {
    assert StartsWell(cfg, oracle, |log| - 1, log[|log| - 1]);
    SpendingIsRecorded(cfg, oracle, prices, |log| - 1);
  }

  // ----- what the budget can stop -----

  /** Some budget stops some run of this handler: it would go on in time and with attempts left, but is over its
      limits. */
  ghost predicate SomeBudgetStops(oracle: Oracle) {
    exists cfg: Config, log: seq<Start>, finish: int ::
      cfg.Valid() && log != [] && Run(cfg, oracle, log) && Ends(cfg, oracle, OverBudget, log, cfg.maxAttempts, finish)
  }

  /** The first n attempts all fail retryably, and nobody cancels. */
  ghost predicate KeepsFailing(oracle: Oracle, n: nat) {
    forall k: nat | 1 <= k <= n :: Retryable(oracle(k)) && !oracle(k).cancelled
  }

  /** More than the least limit, of one cent or one token. */
  ghost predicate RecordsMore(oracle: Oracle, n: nat) {
    Cents(oracle, n) > 1 || TokenSum(oracle, n) > 1
  }

  lemma {:induction false} SumsGrow(oracle: Oracle, m: nat, n: nat)
    requires m <= n
    ensures Cents(oracle, m) <= Cents(oracle, n) && TokenSum(oracle, m) <= TokenSum(oracle, n)
    decreases n
  {
    if m < n {
      SumsGrow(oracle, m, n - 1);
    }
  }

  lemma {:induction false} LeastRecording(oracle: Oracle, n: nat) returns (m: nat)
    requires RecordsMore(oracle, n)
    ensures 1 <= m <= n && RecordsMore(oracle, m) && !RecordsMore(oracle, m - 1)
  {
    m := n;
    if n > 0 && RecordsMore(oracle, n - 1) {
      m := LeastRecording(oracle, n - 1);
    }
  }

  /** The tightest budget, with no time limit and room for one more attempt than n. */
  function Tightest(n: nat): Config {
    Config(n + 1, 0, 1, 1, 1.0, false, 1, 1, true)
  }

  /** Under it a handler that keeps failing is called again until more than a cent or a token is recorded. */
  lemma {:induction false} TightRun(oracle: Oracle, n: nat, m: nat) returns (log: seq<Start>, finish: int)
    requires 1 <= m <= n && KeepsFailing(oracle, m) && !RecordsMore(oracle, m - 1)
    ensures |log| == m && Run(Tightest(n), oracle, log)
    ensures Continues(Tightest(n), oracle, m, log[m - 1].time, finish)
  {
    var time := 0;
    log := [];
    if m > 1 {
      SumsGrow(oracle, m - 2, m - 1);
      log, time := TightRun(oracle, n, m - 1);
    }
    var start := Start(time, Cents(oracle, m - 1), TokenSum(oracle, m - 1));
    RunSnoc(Tightest(n), oracle, log, start);
    log := log + [start];
    assert Retryable(oracle(m)) && !oracle(m).cancelled;
    WaitFits(Tightest(n), m, time + oracle(m).duration, oracle(m));
    var wait := Wait(Tightest(n), m, time + oracle(m).duration, oracle(m));
    finish := time + oracle(m).duration + wait.value + oracle(m).late;
  }

  /** Exactly which handlers a budget can stop: those whose first attempts fail retryably while their responses record
      more than one cent or more than one token. */
  lemma BudgetStopsExactly(oracle: Oracle)
    ensures SomeBudgetStops(oracle) <==> exists n: nat :: n >= 1 && KeepsFailing(oracle, n) && RecordsMore(oracle, n)
  {
    if SomeBudgetStops(oracle) {
      var cfg: Config, log: seq<Start>, finish: int :|
        && cfg.Valid() && log != [] && Run(cfg, oracle, log)
        && Ends(cfg, oracle, OverBudget, log, cfg.maxAttempts, finish);
      var n := |log|;
      forall k: nat | 1 <= k <= n ensures Retryable(oracle(k)) && !oracle(k).cancelled {
        if k < n {
          assert Continues(cfg, oracle, k, log[k - 1].time, log[k].time);
        }
      }
      assert KeepsFailing(oracle, n) && RecordsMore(oracle, n);
    }
    if n: nat :| n >= 1 && KeepsFailing(oracle, n) && RecordsMore(oracle, n) {
      var m := LeastRecording(oracle, n);
      var log, finish := TightRun(oracle, n, m);
      assert Ends(Tightest(n), oracle, OverBudget, log, n + 1, finish);
    }
  }

  // ----- failures without a response -----

  /** As the HTTP handler and the pricing middleware below the loop behave: an error comes with no response. */
  ghost predicate FailsEmpty(oracle: Oracle) {
    forall k: nat | 1 <= k && oracle(k).error.Some? :: oracle(k).response.None?
  }

  lemma {:induction false} RetriesCostNothing(oracle: Oracle, n: nat)
    requires FailsEmpty(oracle) && forall k: nat | 1 <= k <= n :: Retryable(oracle(k))
    ensures Cents(oracle, n) == 0 && TokenSum(oracle, n) == 0
  {
    if n > 0 {
      RetriesCostNothing(oracle, n - 1);
      assert Retryable(oracle(n));
    }
  }

  /** If failures bring no response, every attempt starts with nothing recorded, and no budget stops any run. */
  lemma EmptyFailuresEscapeBudget(cfg: Config, oracle: Oracle, log: seq<Start>, finish: int)
    requires cfg.Valid() && Run(cfg, oracle, log) && FailsEmpty(oracle)
    ensures forall k | 0 <= k < |log| :: log[k].costCents == 0 && log[k].tokens == 0
    ensures log != [] && Continues(cfg, oracle, |log|, log[|log| - 1].time, finish) ==>
              !ExceedsBudget(cfg, Cost(cfg, oracle, |log|), Tokens(cfg, oracle, |log|))
    ensures !SomeBudgetStops(oracle)
  {
    forall k: nat | 1 <= k < |log| ensures Retryable(oracle(k)) {
      assert Continues(cfg, oracle, k, log[k - 1].time, log[k].time);
    }
    forall k: nat | k < |log| ensures log[k].costCents == 0 && log[k].tokens == 0 {
      assert StartsWell(cfg, oracle, k, log[k]);
      RetriesCostNothing(oracle, k);
    }
    if log != [] && Continues(cfg, oracle, |log|, log[|log| - 1].time, finish) {
      RetriesCostNothing(oracle, |log|);
    }
    forall n: nat | KeepsFailing(oracle, n) ensures !RecordsMore(oracle, n) {
      RetriesCostNothing(oracle, n);
    }
    BudgetStopsExactly(oracle);
  }
}
