/**
 The Redis fixed-window script that all instances share, for one key at a time. Each run of the
 script is one atomic step at the server's clock, in milliseconds; a key set at time t with a
 time-to-live of w is present from t until just before t + w.
 */
module FixedWindow {

  const WINDOW: nat := 1000
  const MIN_RETRY_AFTER_SECONDS := 1
  const MAX_RETRY_AFTER_SECONDS := 3600

  datatype Expiry = Never | At(ms: nat)

  datatype Counter = Absent | Counter(count: nat, expiry: Expiry)

  datatype Reply = Allow(remaining: int) | Deny(ttl: int)

  predicate Live(c: Counter, now: nat) {
    c.Counter? && (c.expiry.Never? || now < c.expiry.ms)
  }

  /** PTTL of a live key; -1 when it never expires. */
  function TimeToLive(c: Counter, now: nat): int
    requires Live(c, now)
  {
    match c.expiry
    case Never => -1
    case At(ms) => ms - now
  }

  function Script(c: Counter, now: nat, limit: nat): (Counter, Reply) {
    if !Live(c, now) then (Counter(1, At(now + WINDOW)), Allow(limit - 1))
    else if c.count < limit then
      var expiry := if TimeToLive(c, now) == -1 then At(now + WINDOW) else c.expiry;
      (Counter(c.count + 1, expiry), Allow(limit - (c.count + 1)))
    else (c, Deny(TimeToLive(c, now)))
  }

  /** The store's counters; the script touches the one key it is given. */
  class CounterStore {
    var counters: map<string, Counter>

    function Lookup(key: string): Counter
      reads this
    {
      if key in counters then counters[key] else Absent
    }

    constructor ()
      ensures counters == map[]
    {
      counters := map[];
    }

    method RunScript(key: string, now: nat, limit: nat) returns (reply: Reply)
      modifies this
      ensures (Lookup(key), reply) == Script(old(Lookup(key)), now, limit)
      ensures forall other | other != key :: Lookup(other) == old(Lookup(other))
    {
      var current := Lookup(key);
      if !Live(current, now) {
        counters := counters[key := Counter(1, At(now + WINDOW))];
        return Allow(limit - 1);
      }
      if current.count < limit {
        var newCount := current.count + 1;
        counters := counters[key := Counter(newCount, current.expiry)];
        if TimeToLive(current, now) == -1 {
          counters := counters[key := Counter(newCount, At(now + WINDOW))];
        }
        return Allow(limit - newCount);
      }
      return Deny(TimeToLive(current, now));
    }

    /** One request at one instance: a limit below one never reaches the script. */
    method CheckGlobalLimit(key: string, now: nat, limit: int) returns (verdict: Verdict)
      modifies this
      ensures limit <= 0 ==> counters == old(counters) && verdict == if limit < 0 then Misconfigured else Passed
      ensures limit > 0 ==>
                var (c, reply) := Script(old(Lookup(GlobalKey(key))), now, limit);
                Lookup(GlobalKey(key)) == c && verdict == Parse(reply, limit)
      ensures forall other | other != GlobalKey(key) :: Lookup(other) == old(Lookup(other))
    {
      if limit < 0 {
        return Misconfigured;
      }
      if limit == 0 {
        return Passed;
      }
      var reply := RunScript(GlobalKey(key), now, limit);
      return Parse(reply, limit);
    }
  }

  function GlobalKey(key: string): string { "rl:global:" + key }

  function Parse(reply: Reply, limit: int): Verdict {
    match reply
    case Allow(_) => Passed
    case Deny(ttl) => Limited(limit, RetryAfter(ttl))
  }

  datatype Verdict = Passed | Limited(limit: int, retryAfter: int) | Misconfigured

  /** Seconds the caller is told to wait, from the time-to-live of the window that denied it. */
  function RetryAfter(ttl: int): int {
    var ms := if ttl <= 0 then 1000 else ttl;
    var seconds := ms / 1000;
    if seconds < MIN_RETRY_AFTER_SECONDS then MIN_RETRY_AFTER_SECONDS
    else if seconds > MAX_RETRY_AFTER_SECONDS then MAX_RETRY_AFTER_SECONDS
    else seconds
  }

  /** In whole seconds of at least one, the advertised wait covers a time-to-live exactly if that is at most a second,
      or a whole number of seconds up to an hour; and no shorter wait does. */
  lemma RetryAfterCovers(ttl: int)
    requires ttl > 0
    ensures 1000 * RetryAfter(ttl) >= ttl <==> ttl <= 1000 || (ttl % 1000 == 0 && ttl <= 3_600_000)
    ensures forall seconds: int :: 1 <= seconds && 1000 * seconds >= ttl ==> seconds >= RetryAfter(ttl)
  {
  }

  /** Without a usable time-to-live the wait is one second. */
  lemma RetryAfterDefault(ttl: int)
    requires ttl <= 0
    ensures RetryAfter(ttl) == 1
  {
  }

  /** Different keys have different counters. */
  lemma GlobalKeyInjective(a: string, b: string)
    ensures GlobalKey(a) == GlobalKey(b) <==> a == b
  {
    assert GlobalKey(a)[10..] == a && GlobalKey(b)[10..] == b;
  }

  // ----- runs of the script on one key -----

  /** The counter after calls at the given times, starting from an absent key. */
  function After(limit: nat, times: seq<nat>): Counter {
    if times == [] then Absent
    else Script(After(limit, times[..|times| - 1]), times[|times| - 1], limit).0
  }

  predicate Admitted(limit: nat, past: seq<nat>, now: nat) {
    Script(After(limit, past), now, limit).1.Allow?
  }

  ghost predicate Monotone(times: seq<nat>) {
    forall i, j | 0 <= i < j < |times| :: times[i] <= times[j]
  }

  /** How many calls were admitted at times in [a, b). */
  ghost function Admissions(limit: nat, times: seq<nat>, a: int, b: int): nat {
    if times == [] then 0
    else
      var past, now := times[..|times| - 1], times[|times| - 1];
      Admissions(limit, past, a, b) + if a <= now < b && Admitted(limit, past, now) then 1 else 0
  }

  lemma {:induction false} NoneOutside(limit: nat, times: seq<nat>, a: int, b: int)
    requires forall i | 0 <= i < |times| :: times[i] < a || b <= times[i]
    ensures Admissions(limit, times, a, b) == 0
  {
    if times != [] {
      NoneOutside(limit, times[..|times| - 1], a, b);
    }
  }

  /** After any run the key is live at its latest call, carries a time-to-live of at most WINDOW, and counts exactly the
      admissions since its window opened, which never exceed the limit. */
  lemma {:induction false} WindowCounts(limit: nat, times: seq<nat>, b: int)
    requires limit >= 1 && Monotone(times) && times != []
    requires times[|times| - 1] < b
    ensures var c, last := After(limit, times), times[|times| - 1];
            && Live(c, last) && c.expiry.At? && c.expiry.ms <= last + WINDOW
            && 1 <= c.count <= limit
            && c.count == Admissions(limit, times, c.expiry.ms - WINDOW, b)
  {
    var past, now := times[..|times| - 1], times[|times| - 1];
    if past != [] {
      assert past[|past| - 1] == times[|times| - 2] <= now;
      WindowCounts(limit, past, b);
    }
    if !Live(After(limit, past), now) {
      assert forall i | 0 <= i < |past| :: past[i] <= past[|past| - 1];
      NoneOutside(limit, past, now, b);
    }
  }

  lemma AllowReply(c: Counter, now: nat, limit: nat)
    requires Script(c, now, limit).1.Allow?
    ensures Script(c, now, limit).1.remaining == limit - Script(c, now, limit).0.count
  {
  }

  /** If the latest call was admitted, the script replied how many more its window can take. */
  lemma AllowIsExact(limit: nat, times: seq<nat>)
    requires limit >= 1 && Monotone(times) && times != []
    requires Admitted(limit, times[..|times| - 1], times[|times| - 1])
    ensures var c, now := After(limit, times), times[|times| - 1];
            && c.Counter? && c.expiry.At?
            && Script(After(limit, times[..|times| - 1]), now, limit).1.remaining
               == limit - Admissions(limit, times, c.expiry.ms - WINDOW, now + 1) >= 0
  {
    AllowReply(After(limit, times[..|times| - 1]), times[|times| - 1], limit);
    WindowCounts(limit, times, times[|times| - 1] + 1);
  }

  /** On a denial it replies how long the window lives on, which is at most a second. */
  lemma DenyIsExact(limit: nat, past: seq<nat>, now: nat)
    requires limit >= 1 && Monotone(past + [now]) && !Admitted(limit, past, now)
    ensures var (c, reply) := Script(After(limit, past), now, limit);
            && 0 < reply.ttl <= WINDOW && RetryAfter(reply.ttl) == 1
            && forall later: nat | now <= later :: Live(c, later) <==> later < now + reply.ttl
  {
    MonotonePrefix(past, [now]);
    assert past != [] ==> past[|past| - 1] == (past + [now])[|past| - 1] <= (past + [now])[|past|];
    if past != [] {
      WindowCounts(limit, past, now + 1);
    }
  }

  // ----- counters without an expiry -----

  /** The counter after calls at the given times, starting from any counter. */
  function AfterFrom(c: Counter, limit: nat, times: seq<nat>): Counter {
    if times == [] then c
    else Script(AfterFrom(c, limit, times[..|times| - 1]), times[|times| - 1], limit).0
  }

  /** A key without expiry is given one again by the next admission; if it has reached the limit there is none any more,
      so the key is denied for ever. */
  lemma {:induction false} ImmortalCounter(count: nat, limit: nat, times: seq<nat>, now: nat)
    requires limit >= 1
    ensures Script(Counter(count, Never), now, limit).1.Allow? <==> count < limit
    ensures count < limit ==> Script(Counter(count, Never), now, limit).0 == Counter(count + 1, At(now + WINDOW))
    ensures count >= limit ==>
              && AfterFrom(Counter(count, Never), limit, times) == Counter(count, Never)
              && Script(AfterFrom(Counter(count, Never), limit, times), now, limit).1.Deny?
  {
    if times != [] {
      ImmortalCounter(count, limit, times[..|times| - 1], now);
    }
  }

  /** A denial happens exactly when the live window already holds `limit` admissions. */
  lemma DenialMeansFull(limit: nat, past: seq<nat>, now: nat)
    requires limit >= 1 && Monotone(past + [now])
    ensures !Admitted(limit, past, now) <==>
              && Live(After(limit, past), now) && After(limit, past).expiry.At?
              && Admissions(limit, past, After(limit, past).expiry.ms - WINDOW, now + 1) == limit
  {
    if past != [] {
      assert forall i | 0 <= i < |past| :: (past + [now])[i] == past[i];
      assert past[|past| - 1] <= (past + [now])[|past|];
      assert Monotone(past);
      WindowCounts(limit, past, now + 1);
    }
  }

  /** Waiting the returned RetryAfter outlasts the window that denied: the key is gone, so the next call opens a new
      window and is admitted. */
  lemma RetryAfterOutlastsWindow(limit: nat, past: seq<nat>, now: nat, later: nat)
    requires limit >= 1 && Monotone(past + [now]) && !Admitted(limit, past, now)
    requires later >= now + 1000 * RetryAfter(Script(After(limit, past), now, limit).1.ttl)
    ensures !Live(After(limit, past + [now]), later)
    ensures Admitted(limit, past + [now], later)
  {
    DenialMeansFull(limit, past, now);
    assert past != [];
    assert forall i | 0 <= i < |past| :: (past + [now])[i] == past[i];
    assert past[|past| - 1] <= (past + [now])[|past|];
    WindowCounts(limit, past, now + 1);
    assert (past + [now])[..|past|] == past;
  }

  lemma {:induction false} FewerLater(limit: nat, times: seq<nat>, a: int, a': int, b: int)
    requires a <= a'
    ensures Admissions(limit, times, a', b) <= Admissions(limit, times, a, b)
  {
    if times != [] {
      FewerLater(limit, times[..|times| - 1], a, a', b);
    }
  }

  /** Whatever calls come in between: a window that is live after the advertised wait opened after the denial, and the
      retry is denied only if at least `limit` other calls have been admitted since. */
  lemma RetryDeniedMeansOvertaken(limit: nat, past: seq<nat>, now: nat, more: seq<nat>, later: nat)
    requires limit >= 1 && Monotone(past + [now] + more + [later]) && !Admitted(limit, past, now)
    requires later >= now + 1000 * RetryAfter(Script(After(limit, past), now, limit).1.ttl)
    ensures var c := After(limit, past + [now] + more);
            Live(c, later) ==> c.expiry.At? && c.expiry.ms - WINDOW > now
    ensures !Admitted(limit, past + [now] + more, later) ==>
              Admissions(limit, past + [now] + more, now + 1, later + 1) >= limit
  {
    var times := past + [now] + more;
    MonotonePrefix(times, [later]);
    var n := |times| - 1;
    assert times[n] == (times + [later])[n] <= (times + [later])[n + 1];
    WindowCounts(limit, times, later + 1);
    if Live(After(limit, times), later) {
      FewerLater(limit, times, now + 1, After(limit, times).expiry.ms - WINDOW, later + 1);
    }
  }

  lemma MonotonePrefix(a: seq<nat>, b: seq<nat>)
    requires Monotone(a + b)
    ensures Monotone(a)
  {
    assert forall i | 0 <= i < |a| :: a[i] == (a + b)[i];
  }

  // ----- the rate over any interval -----

  function CeilDiv(a: nat, b: nat): nat
    requires b > 0
  {
    (a + b - 1) / b
  }

  /** The most that an interval from a on can hold before a window opens at s: a full limit for each WINDOW that passed,
      and what a window opened before a may have left, unless there is no room for its last millisecond. */
  ghost function Before(limit: nat, a: int, s: int): int {
    limit * ((s - a) / WINDOW) + if (s - a) % WINDOW == 0 then 0 else limit - 1
  }

  /** The most that an interval of the given length can hold. */
  function MaxAdmissions(limit: nat, length: nat): int
    requires length >= 1
  {
    limit * CeilDiv(length, WINDOW) + if (length - 1) % WINDOW == 0 then 0 else limit - 1
  }

  lemma TimesMonotone(limit: nat, x: int, y: int)
    requires x <= y
    ensures limit * x <= limit * y
  {
  }

  lemma BeforeMonotone(limit: nat, a: int, s: int, s': int)
    requires limit >= 1 && a <= s <= s'
    ensures 0 <= Before(limit, a, s) <= Before(limit, a, s')
    ensures s + WINDOW <= s' ==> Before(limit, a, s) + limit <= Before(limit, a, s')
    ensures a < s ==> limit - 1 <= Before(limit, a, s)
  {
    var q, q' := (s - a) / WINDOW, (s' - a) / WINDOW;
    assert 0 <= q <= q';
    TimesMonotone(limit, 0, q);
    TimesMonotone(limit, q, q');
    if q < q' {
      TimesMonotone(limit, q + 1, q');
      assert limit * (q + 1) == limit * q + limit;
    }
    if q > 0 {
      TimesMonotone(limit, 1, q);
    }
    if s + WINDOW <= s' {
      OneWindowLater(limit, a, s);
      BeforeMonotoneOnly(limit, a, s + WINDOW, s');
    }
  }

  lemma BeforeMonotoneOnly(limit: nat, a: int, s: int, s': int)
    requires limit >= 1 && a <= s <= s'
    ensures Before(limit, a, s) <= Before(limit, a, s')
  {
    var q, q' := (s - a) / WINDOW, (s' - a) / WINDOW;
    assert q <= q';
    if q < q' {
      TimesMonotone(limit, q + 1, q');
      assert limit * (q + 1) == limit * q + limit;
    }
  }

  lemma OneWindowLater(limit: nat, a: int, s: int)
    ensures Before(limit, a, s + WINDOW) == Before(limit, a, s) + limit
  {
    var q := (s - a) / WINDOW;
    assert (s + WINDOW - a) / WINDOW == q + 1;
    assert (s + WINDOW - a) % WINDOW == (s - a) % WINDOW;
    assert limit * (q + 1) == limit * q + limit;
  }

  lemma MaxIsLastWindowFull(limit: nat, a: int, length: nat)
    requires length >= 1
    ensures MaxAdmissions(limit, length) == Before(limit, a, a + length - 1) + limit
  {
    var q := (length - 1) / WINDOW;
    assert CeilDiv(length, WINDOW) == q + 1;
    assert limit * (q + 1) == limit * q + limit;
  }

  /** What the admissions in [a, a + length) can be, given when the current window opened. */
  ghost predicate Charged(limit: nat, c: Counter, admissions: nat, a: int, length: nat)
    requires length >= 1
  {
    && admissions <= MaxAdmissions(limit, length)
    && c.Counter? && c.expiry.At?
    && var s := c.expiry.ms - WINDOW;
       && (s < a ==> admissions <= c.count - 1 && (admissions > 0 ==> a < s + WINDOW))
       && (a <= s < a + length ==> admissions <= Before(limit, a, s) + c.count)
  }

  lemma {:induction false} RunIsCharged(limit: nat, times: seq<nat>, a: int, length: nat)
    requires limit >= 1 && length >= 1 && Monotone(times) && times != []
    ensures Charged(limit, After(limit, times), Admissions(limit, times, a, a + length), a, length)
  {
    var past, now := times[..|times| - 1], times[|times| - 1];
    var c := After(limit, past);
    assert Monotone(past);
    if past != [] {
      assert past[|past| - 1] <= now;
      RunIsCharged(limit, past, a, length);
      WindowCounts(limit, past, now + 1);
    }
    if now < a {
      assert forall i | 0 <= i < |past| :: past[i] == times[i] <= now;
      NoneOutside(limit, past, a, a + length);
    }
    if !Live(c, now) {
      FreshWindowCharged(limit, c, now, Admissions(limit, past, a, a + length), a, length);
    } else if c.count < limit {
      SameWindowCharged(limit, c, now, Admissions(limit, past, a, a + length), a, length);
    }
  }

  /** A step within the current window. */
  lemma SameWindowCharged(limit: nat, c: Counter, now: nat, before: nat, a: int, length: nat)
    requires limit >= 1 && length >= 1 && Charged(limit, c, before, a, length)
    requires 1 <= c.count < limit && c.expiry.ms - WINDOW <= now < c.expiry.ms
    ensures Charged(limit, c.(count := c.count + 1), before + (if a <= now < a + length then 1 else 0), a, length)
  {
    var s := c.expiry.ms - WINDOW;
    BeforeMonotone(limit, a, a, a + length - 1);
    MaxIsLastWindowFull(limit, a, length);
    if a <= s < a + length {
      BeforeMonotone(limit, a, s, a + length - 1);
    }
  }

  /** The step that opens a new window. */
  lemma FreshWindowCharged(limit: nat, c: Counter, now: nat, before: nat, a: int, length: nat)
    requires limit >= 1 && length >= 1 && !Live(c, now)
    requires c.Counter? ==> Charged(limit, c, before, a, length) && 1 <= c.count <= limit
    requires c.Absent? || now < a ==> before == 0
    ensures Charged(limit, Counter(1, At(now + WINDOW)),
                    before + (if a <= now < a + length then 1 else 0), a, length)
  {
    MaxIsLastWindowFull(limit, a, length);
    BeforeMonotone(limit, a, a, a + length - 1);
    if a <= now < a + length {
      BeforeMonotone(limit, a, now, a + length - 1);
      if c.Counter? && a <= c.expiry.ms - WINDOW {
        BeforeMonotone(limit, a, c.expiry.ms - WINDOW, now);
      }
    }
  }

  /** Over any run by any number of instances, an interval holds at most `MaxAdmissions` of its length, which is below
      (ceil(length / WINDOW) + 1) * limit. */
  lemma IntervalBound(limit: nat, times: seq<nat>, a: int, length: nat)
    requires limit >= 1 && length >= 1 && Monotone(times)
    ensures Admissions(limit, times, a, a + length) <= MaxAdmissions(limit, length)
    ensures MaxAdmissions(limit, length) <= (CeilDiv(length, WINDOW) + 1) * limit - 1
  {
    assert (CeilDiv(length, WINDOW) + 1) * limit == limit * CeilDiv(length, WINDOW) + limit;
    if times != [] {
      RunIsCharged(limit, times, a, length);
    } else {
      TimesMonotone(limit, 0, CeilDiv(length, WINDOW));
    }
  }

  // ----- the bound is attained -----

  /** The calls are in order, the latest no later than t. */
  ghost predicate Until(times: seq<nat>, t: nat) {
    Monotone(times) && forall i | 0 <= i < |times| :: times[i] <= t
  }

  lemma UntilLater(times: seq<nat>, t: nat, t': nat)
    requires Until(times, t) && t <= t'
    ensures Until(times + [t'], t')
  {
  }

  lemma OneMoreCall(limit: nat, past: seq<nat>, t: nat, a: int, b: int)
    ensures After(limit, past + [t]) == Script(After(limit, past), t, limit).0
    ensures Admissions(limit, past + [t], a, b) ==
            Admissions(limit, past, a, b) + if a <= t < b && Admitted(limit, past, t) then 1 else 0
  {
    var times := past + [t];
    assert times[..|times| - 1] == past && times[|times| - 1] == t;
  }

  /** n more calls at once, all of them admitted. */
  lemma {:induction false} Burst(limit: nat, past: seq<nat>, t: nat, n: nat, a: int, b: int) returns (times: seq<nat>)
    requires var c := After(limit, past); c.Counter? && c.expiry.At? && t < c.expiry.ms && c.count + n <= limit
    requires Until(past, t)
    ensures Until(times, t)
    ensures After(limit, times) == After(limit, past).(count := After(limit, past).count + n)
    ensures Admissions(limit, times, a, b) == Admissions(limit, past, a, b) + if a <= t < b then n else 0
  {
    times := past;
    if n > 0 {
      times := Burst(limit, past, t, n - 1, a, b);
      OneMoreCall(limit, times, t, a, b);
      UntilLater(times, t, t);
      times := times + [t];
    }
  }

  /** A window that opens when no other is live, and fills up at once. */
  lemma OpenWindow(limit: nat, past: seq<nat>, before: nat, t: nat, a: int, b: int) returns (times: seq<nat>)
    requires limit >= 1 && !Live(After(limit, past), t) && Until(past, before) && before <= t
    ensures Until(times, t)
    ensures After(limit, times) == Counter(limit, At(t + WINDOW))
    ensures Admissions(limit, times, a, b) == Admissions(limit, past, a, b) + if a <= t < b then limit else 0
  {
    OneMoreCall(limit, past, t, a, b);
    UntilLater(past, before, t);
    times := Burst(limit, past + [t], t, limit - 1, a, b);
  }

  /** One call at time 0 and limit - 1 calls at the end of its window. */
  lemma FirstWindow(limit: nat, a: nat, b: nat) returns (times: seq<nat>)
    requires limit >= 1 && WINDOW - 1 <= a <= WINDOW && a < b
    ensures Until(times, WINDOW - 1)
    ensures After(limit, times) == Counter(limit, At(WINDOW))
    ensures Admissions(limit, times, a, b) == if a < WINDOW then limit - 1 else 0
  {
    OneMoreCall(limit, [], 0, a, b);
    times := Burst(limit, [] + [0], WINDOW - 1, limit - 1, a, b);
  }

  /** After that m windows fill up as they open; the interval starts with the residue of the first or just after it. */
  lemma {:induction false} Train(limit: nat, m: nat, a: nat, b: nat) returns (times: seq<nat>)
    requires limit >= 1 && WINDOW - 1 <= a <= WINDOW && a < b && m * WINDOW < b
    ensures Until(times, (m + 1) * WINDOW - 1)
    ensures After(limit, times) == Counter(limit, At((m + 1) * WINDOW))
    ensures Admissions(limit, times, a, b) == Filled(limit, m, a)
  {
    if m == 0 {
      times := FirstWindow(limit, a, b);
    } else {
      times := Train(limit, m - 1, a, b);
      times := OpenWindow(limit, times, m * WINDOW - 1, m * WINDOW, a, b);
      FilledGrows(limit, m, a);
    }
  }

  function Filled(limit: nat, m: nat, a: int): int {
    limit * m + if a < WINDOW then limit - 1 else 0
  }

  lemma FilledGrows(limit: nat, m: nat, a: int)
    requires m > 0
    ensures Filled(limit, m, a) == Filled(limit, m - 1, a) + limit
  {
    assert limit * m == limit * (m - 1) + limit;
  }

  /** The bound is exact for every limit and every length: some run fills some interval of that length with as many
      admissions. */
  lemma BoundIsAttained(limit: nat, length: nat) returns (times: seq<nat>, a: nat)
    requires limit >= 1 && length >= 1
    ensures Monotone(times)
    ensures Admissions(limit, times, a, a + length) == MaxAdmissions(limit, length)
  {
    var m: nat;
    if (length - 1) % WINDOW == 0 {
      a, m := WINDOW, (length - 1) / WINDOW + 1;
    } else {
      a, m := WINDOW - 1, (length - 2) / WINDOW + 1;
    }
    times := Train(limit, m, a, a + length);
    assert m == CeilDiv(length, WINDOW);
  }

  /** Two consecutive milliseconds can hold as many admissions as any second, and 1001 of them just one more. */
  lemma ShortIntervals(limit: nat)
    ensures MaxAdmissions(limit, 1) == limit
    ensures MaxAdmissions(limit, 2) == MaxAdmissions(limit, WINDOW) == 2 * limit - 1
    ensures MaxAdmissions(limit, WINDOW + 1) == 2 * limit
  {
  }
}
