/**
 The per-key token buckets and the cleanup of stale ones. Times are seconds as reals; the bucket
 is the textbook one, whose level at any time is min(burst, tokens + rate * elapsed).
 */
module LocalLimiter {
  import opened Common

  datatype Bucket = Bucket(burst: int, tokens: real, last: real)

  /** The local limits, as the validated configuration has them. */
  datatype Config = Config(rate: real, burst: int) {
    ghost predicate Valid() {
      rate >= 0.0 && burst >= 0 && (rate == 0.0 ==> burst == 0)
    }
  }

  datatype Limiter = Limiter(bucket: Bucket, lastUsed: real, exhausted: bool)

  const HOUR := 3600.0
  const LIMITER_TTL_MULTIPLIER := 10

  function Min(a: real, b: real): real { if a <= b then a else b }

  /** What flows into a bucket over the elapsed time. */
  function Flow(rate: real, elapsed: real): (r: real)
    ensures rate >= 0.0 && elapsed >= 0.0 ==> r >= 0.0
    ensures elapsed == 0.0 ==> r == 0.0
  {
    rate * elapsed
  }

  function Level(rate: real, b: Bucket, now: real): real {
    Min(b.burst as real, b.tokens + Flow(rate, now - b.last))
  }

  function Take(rate: real, b: Bucket, now: real): (Bucket, bool) {
    var level := Level(rate, b, now);
    if level >= 1.0 then (b.(tokens := level - 1.0, last := now), true) else (b, false)
  }

  function NewBucket(burst: int, now: real): Bucket { Bucket(burst, burst as real, now) }

  /** The least age at which cleanup may touch a limiter, in seconds. */
  function MinTTL(cfg: Config): real {
    var ttl :=
      if cfg.rate > 0.0 then (Truncate(cfg.burst as real / cfg.rate) * LIMITER_TTL_MULTIPLIER) as real else 0.0;
    if ttl < HOUR then HOUR else ttl
  }

  // ----- one key -----

  /** A request for the key: find or create its limiter, then take a token or remember the denial. */
  function Request(cfg: Config, slot: Option<Limiter>, now: real): (Option<Limiter>, bool) {
    var limiter := match slot
      case None => Limiter(NewBucket(cfg.burst, now), now, false)
      case Some(l) => l.(lastUsed := now);
    var (bucket, ok) := Take(cfg.rate, limiter.bucket, now);
    if ok then (Some(limiter.(bucket := bucket)), true)
    else (Some(limiter.(exhausted := true)), false)
  }

  predicate Stale(cfg: Config, l: Limiter, before: real) { l.lastUsed < before - MinTTL(cfg) }

  /** Cleanup of one entry: an untouched one is left alone, a never-denied one with a token is dropped, any other one is
      replaced by an empty bucket. */
  function Swept(cfg: Config, slot: Option<Limiter>, before: real, now: real): Option<Limiter> {
    match slot
    case None => None
    case Some(l) =>
      if !Stale(cfg, l, before) then slot
      else if Level(cfg.rate, l.bucket, now) >= 1.0 && !l.exhausted then None
      else Some(l.(bucket := NewBucket(0, now), exhausted := true))
  }

  // ----- the table -----

  function Entry(limiters: map<string, Limiter>, key: string): Option<Limiter> {
    if key in limiters then Some(limiters[key]) else None
  }

  class LimiterTable {
    var limiters: map<string, Limiter>
    const config: Config

    constructor (cfg: Config)
      ensures config == cfg && limiters == map[]
    {
      config := cfg;
      limiters := map[];
    }

    method GetOrCreateLimiter(key: string, now: real)
      modifies this
      ensures key in limiters
      ensures limiters == old(limiters)[key := limiters[key]]
      ensures limiters[key] == match old(Entry(limiters, key))
                               case None => Limiter(NewBucket(config.burst, now), now, false)
                               case Some(l) => l.(lastUsed := now)
    {
      if key in limiters {
        limiters := limiters[key := limiters[key].(lastUsed := now)];
      } else {
        limiters := limiters[key := Limiter(NewBucket(config.burst, now), now, false)];
      }
    }

    method CheckLocalLimit(key: string, now: real) returns (allowed: bool)
      modifies this
      ensures (Entry(limiters, key), allowed) == Request(config, old(Entry(limiters, key)), now)
      ensures forall other | other != key :: Entry(limiters, other) == old(Entry(limiters, other))
    {
      GetOrCreateLimiter(key, now);
      var limiter := limiters[key];
      var (bucket, ok) := Take(config.rate, limiter.bucket, now);
      if !ok {
        limiters := limiters[key := limiter.(exhausted := true)];
        return false;
      }
      limiters := limiters[key := limiter.(bucket := bucket)];
      return true;
    }

    /** Visits the entries in an arbitrary order, as a Go map range does. */
    method CleanupStale(before: real, now: real)
      modifies this
      ensures forall key :: Entry(limiters, key) == Swept(config, old(Entry(limiters, key)), before, now)
    {
      var cutoff := before - MinTTL(config);
      var pending := limiters.Keys;
      ghost var start := limiters;
      while pending != {}
        invariant pending <= start.Keys && limiters.Keys <= start.Keys
        invariant forall key | key in pending :: Entry(limiters, key) == Entry(start, key)
        invariant forall key | key !in pending ::
          Entry(limiters, key) == Swept(config, Entry(start, key), before, now)
        decreases |pending|
      {
        var key :| key in pending;
        assert Entry(limiters, key) == Entry(start, key);
        var limiter := limiters[key];
        if limiter.lastUsed < cutoff {
          var hasToken := Level(config.rate, limiter.bucket, now) >= 1.0;
          if hasToken && !limiter.exhausted {
            limiters := limiters - {key};
          } else {
            limiters := limiters[key := limiter.(bucket := NewBucket(0, now), exhausted := true)];
          }
        }
        pending := pending - {key};
      }
    }
  }

  // ----- the age that cleanup waits for is enough to refill -----

  lemma RefillTime(cfg: Config)
    requires cfg.Valid() && cfg.rate > 0.0
    ensures MinTTL(cfg) >= cfg.burst as real / cfg.rate
    ensures MinTTL(cfg) >= HOUR
  {
    var q := cfg.burst as real / cfg.rate;
    assert q >= 0.0 by {
      QuotientNonNegative(cfg.burst as real, cfg.rate);
    }
    assert q < q.Floor as real + 1.0;
    if MinTTL(cfg) != HOUR {
      assert (q.Floor * 10) as real >= HOUR;
    }
  }

  lemma QuotientNonNegative(x: real, y: real)
    requires x >= 0.0 && y > 0.0
    ensures x / y >= 0.0
    ensures x / y * y == x && y * (x / y) == x
  {
  }

  /** A bucket untouched for the cleanup age is full again, whatever it held. */
  lemma StaleBucketIsFull(cfg: Config, b: Bucket, now: real)
    requires cfg.Valid() && b.burst == cfg.burst && b.tokens >= 0.0
    requires now - b.last >= MinTTL(cfg)
    ensures Level(cfg.rate, b, now) == cfg.burst as real
  {
    if cfg.rate > 0.0 {
      var refill := cfg.burst as real / cfg.rate;
      RefillTime(cfg);
      QuotientNonNegative(cfg.burst as real, cfg.rate);
      FlowMonotone(cfg.rate, refill, now - b.last);
      assert Flow(cfg.rate, refill) == cfg.burst as real;
    } else {
      assert Flow(0.0, now - b.last) >= 0.0;
    }
  }

  lemma FlowMonotone(rate: real, x: real, y: real)
    requires rate >= 0.0 && x <= y
    ensures Flow(rate, x) <= Flow(rate, y)
  {
    assert rate * (y - x) >= 0.0;
  }

  lemma FlowAdds(rate: real, x: real, y: real)
    ensures Flow(rate, x + y) == Flow(rate, x) + Flow(rate, y)
  {
  }

  // ----- runs with and without cleanup -----

  datatype Event = Ask(now: real) | Sweep(before: real, now: real)

  /** Time does not run backwards, and a sweep's reference time is not in the future. */
  ghost predicate Timely(evs: seq<Event>) {
    && (forall i, j | 0 <= i < j < |evs| :: evs[i].now <= evs[j].now)
    && (forall i | 0 <= i < |evs| && evs[i].Sweep? :: evs[i].before <= evs[i].now)
  }

  /** The entry of one key after the events, with the sweeps. */
  function Cleaned(cfg: Config, evs: seq<Event>): Option<Limiter> {
    if evs == [] then None
    else
      var slot := Cleaned(cfg, evs[..|evs| - 1]);
      match evs[|evs| - 1]
      case Ask(now) => Request(cfg, slot, now).0
      case Sweep(before, now) => Swept(cfg, slot, before, now)
  }

  /** The entry of the same key if nobody ever swept. */
  function Uncleaned(cfg: Config, evs: seq<Event>): Option<Limiter> {
    if evs == [] then None
    else
      var slot := Uncleaned(cfg, evs[..|evs| - 1]);
      match evs[|evs| - 1]
      case Ask(now) => Request(cfg, slot, now).0
      case Sweep(_, _) => slot
  }

  predicate LockedOut(slot: Option<Limiter>) {
    slot.Some? && slot.value.exhausted && slot.value.bucket.burst == 0 && slot.value.bucket.tokens == 0.0
  }

  /** An unlocked entry is a proper bucket last used no later than now. */
  ghost predicate EntryValid(cfg: Config, l: Limiter, now: real) {
    && l.bucket.burst == cfg.burst && 0.0 <= l.bucket.tokens <= cfg.burst as real
    && l.bucket.last <= l.lastUsed <= now
  }

  /** The swept entry is locked, or equal to the unswept one, or dropped while the unswept one is full and never denied.
      */
  ghost predicate Related(cfg: Config, cleaned: Option<Limiter>, plain: Option<Limiter>, now: real) {
    && (plain.Some? ==> EntryValid(cfg, plain.value, now))
    && (LockedOut(cleaned)
        || cleaned == plain
        || (cleaned.None? && !plain.value.exhausted && Level(cfg.rate, plain.value.bucket, now) == cfg.burst as real
            && cfg.burst >= 1))
  }

  lemma LevelGrows(cfg: Config, b: Bucket, now: real, later: real)
    requires cfg.rate >= 0.0 && now <= later
    ensures Level(cfg.rate, b, now) <= Level(cfg.rate, b, later)
  {
    FlowMonotone(cfg.rate, now - b.last, later - b.last);
  }

  lemma LevelNonNegative(cfg: Config, b: Bucket, now: real)
    requires cfg.rate >= 0.0 && b.last <= now && b.tokens >= 0.0 && b.burst >= 0
    ensures 0.0 <= Level(cfg.rate, b, now) <= b.burst as real
  {
    assert Flow(cfg.rate, now - b.last) >= 0.0;
  }

  lemma LevelAtLast(rate: real, b: Bucket)
    ensures Level(rate, b, b.last) == Min(b.burst as real, b.tokens)
  {
    assert Flow(rate, b.last - b.last) == 0.0;
  }

  lemma AskKeepsValid(cfg: Config, slot: Option<Limiter>, before: real, now: real)
    requires cfg.Valid() && before <= now && (slot.Some? ==> EntryValid(cfg, slot.value, before))
    ensures EntryValid(cfg, Request(cfg, slot, now).0.value, now)
  {
    match slot {
      case None => LevelAtLast(cfg.rate, NewBucket(cfg.burst, now));
      case Some(l) => LevelNonNegative(cfg, l.bucket, now);
    }
  }

  lemma AskRelated(cfg: Config, cleaned: Option<Limiter>, plain: Option<Limiter>, before: real, now: real)
    requires cfg.Valid() && before <= now && Related(cfg, cleaned, plain, before)
    ensures Related(cfg, Request(cfg, cleaned, now).0, Request(cfg, plain, now).0, now)
    ensures LockedOut(cleaned) ==> LockedOut(Request(cfg, cleaned, now).0) && !Request(cfg, cleaned, now).1
    ensures !LockedOut(cleaned) ==> Request(cfg, cleaned, now).1 == Request(cfg, plain, now).1
  {
    AskKeepsValid(cfg, plain, before, now);
    if !LockedOut(cleaned) && cleaned != plain {
      DroppedAndFullAgree(cfg, plain.value, before, now);
    }
  }

  /** A dropped entry starts over exactly where the full one it replaced stands. */
  lemma DroppedAndFullAgree(cfg: Config, l: Limiter, before: real, now: real)
    requires cfg.Valid() && before <= now && EntryValid(cfg, l, before) && cfg.burst >= 1
    requires !l.exhausted && Level(cfg.rate, l.bucket, before) == cfg.burst as real
    ensures Request(cfg, None, now) == Request(cfg, Some(l), now)
  {
    LevelGrows(cfg, l.bucket, before, now);
    LevelAtLast(cfg.rate, NewBucket(cfg.burst, now));
  }

  lemma SweepRelated(cfg: Config, cleaned: Option<Limiter>, plain: Option<Limiter>, past: real, before: real, now: real)
    requires cfg.Valid() && past <= now && before <= now && Related(cfg, cleaned, plain, past)
    ensures Related(cfg, Swept(cfg, cleaned, before, now), plain, now)
    ensures LockedOut(cleaned) ==> LockedOut(Swept(cfg, cleaned, before, now))
  {
    if plain.Some? {
      LevelGrows(cfg, plain.value.bucket, past, now);
      if Stale(cfg, plain.value, before) {
        StaleBucketIsFull(cfg, plain.value.bucket, now);
      }
    }
  }

  lemma {:induction false} RunsRelated(cfg: Config, evs: seq<Event>)
    requires cfg.Valid() && Timely(evs) && evs != []
    ensures Related(cfg, Cleaned(cfg, evs), Uncleaned(cfg, evs), evs[|evs| - 1].now)
  {
    var past, e := evs[..|evs| - 1], evs[|evs| - 1];
    var since := if past == [] then e.now else past[|past| - 1].now;
    if past != [] {
      RunsRelated(cfg, past);
    }
    match e {
      case Ask(now) => AskRelated(cfg, Cleaned(cfg, past), Uncleaned(cfg, past), since, now);
      case Sweep(before, now) => SweepRelated(cfg, Cleaned(cfg, past), Uncleaned(cfg, past), since, before, now);
    }
  }

  /** Cleanup never loosens the limit: unless the key is locked out it decides exactly as if it had never been swept,
      and a locked-out key admits nothing. */
  lemma SweepsNeverLoosen(cfg: Config, evs: seq<Event>, now: real)
    requires cfg.Valid() && Timely(evs + [Ask(now)])
    ensures Request(cfg, Cleaned(cfg, evs), now).1
            == (!LockedOut(Cleaned(cfg, evs)) && Request(cfg, Uncleaned(cfg, evs), now).1)
  {
    assert forall i | 0 <= i < |evs| :: (evs + [Ask(now)])[i] == evs[i];
    if evs != [] {
      assert evs[|evs| - 1].now <= (evs + [Ask(now)])[|evs|].now;
      RunsRelated(cfg, evs);
      AskRelated(cfg, Cleaned(cfg, evs), Uncleaned(cfg, evs), evs[|evs| - 1].now, now);
    }
  }

  /** Once locked out, a key stays so for the rest of every run: no later sweep ever drops it. */
  lemma {:induction false} LockoutIsPermanent(cfg: Config, evs: seq<Event>, k: nat)
    requires cfg.Valid() && Timely(evs) && k <= |evs| && LockedOut(Cleaned(cfg, evs[..k]))
    ensures LockedOut(Cleaned(cfg, evs))
    decreases |evs| - k
  {
    if k == |evs| {
      assert evs[..k] == evs;
    } else {
      assert evs[..k + 1][..k] == evs[..k];
      LockedStays(cfg, Cleaned(cfg, evs[..k]), evs[k]);
      LockoutIsPermanent(cfg, evs, k + 1);
    }
  }

  lemma LockedStays(cfg: Config, slot: Option<Limiter>, e: Event)
    requires LockedOut(slot)
    ensures e.Ask? ==> LockedOut(Request(cfg, slot, e.now).0) && !Request(cfg, slot, e.now).1
    ensures e.Sweep? ==> LockedOut(Swept(cfg, slot, e.before, e.now))
  {
  }

  /** Exactly when a sweep locks a key out: its entry is stale, and it was denied before or its bucket cannot hold a
      token. */
  lemma LockoutCondition(cfg: Config, evs: seq<Event>, before: real, now: real)
    requires cfg.Valid() && Timely(evs + [Sweep(before, now)])
    requires !LockedOut(Cleaned(cfg, evs))
    ensures var slot := Cleaned(cfg, evs);
            LockedOut(Swept(cfg, slot, before, now)) <==>
              slot.Some? && Stale(cfg, slot.value, before) && (slot.value.exhausted || cfg.burst == 0)
  {
    var all := evs + [Sweep(before, now)];
    assert forall i | 0 <= i < |evs| :: all[i] == evs[i];
    if evs != [] {
      assert evs[|evs| - 1].now <= all[|evs|].now && all[|evs|].before <= all[|evs|].now;
      RunsRelated(cfg, evs);
      var slot := Cleaned(cfg, evs);
      if slot.Some? && Stale(cfg, slot.value, before) {
        StaleBucketIsFull(cfg, slot.value.bucket, now);
      }
    }
  }

  // ----- lockout in terms of the history -----

  /** The time of the latest request, if any. */
  ghost function LatestAsk(evs: seq<Event>): Option<real> {
    if evs == [] then None
    else match evs[|evs| - 1]
      case Ask(now) => Some(now)
      case Sweep(_, _) => LatestAsk(evs[..|evs| - 1])
  }

  /** Requests refused since the key last had no entry. */
  ghost function Refusals(cfg: Config, evs: seq<Event>): nat {
    if evs == [] || Cleaned(cfg, evs).None? then 0
    else
      var past, e := evs[..|evs| - 1], evs[|evs| - 1];
      Refusals(cfg, past) + if e.Ask? && !Request(cfg, Cleaned(cfg, past), e.now).1 then 1 else 0
  }

  /** An entry that is not locked out knows when it was last asked, and whether it ever refused. */
  lemma {:induction false} EntryRemembers(cfg: Config, evs: seq<Event>)
    requires cfg.Valid() && Timely(evs)
    ensures var slot := Cleaned(cfg, evs);
            slot.Some? && !LockedOut(slot) ==>
              LatestAsk(evs) == Some(slot.value.lastUsed) && (slot.value.exhausted <==> Refusals(cfg, evs) > 0)
  {
    if evs != [] {
      var past, e := evs[..|evs| - 1], evs[|evs| - 1];
      EntryRemembers(cfg, past);
      if e.Ask? && LockedOut(Cleaned(cfg, past)) {
        LockedStays(cfg, Cleaned(cfg, past), e);
      } else if e.Sweep? && Cleaned(cfg, past).Some? && Stale(cfg, Cleaned(cfg, past).value, e.before) {
        assert past + [e] == evs;
        SweptIsGoneOrLocked(cfg, past, e);
      }
    }
  }

  lemma SweptIsGoneOrLocked(cfg: Config, evs: seq<Event>, e: Event)
    requires cfg.Valid() && Timely(evs + [e]) && e.Sweep?
    requires var slot := Cleaned(cfg, evs); slot.Some? && Stale(cfg, slot.value, e.before)
    ensures var slot := Swept(cfg, Cleaned(cfg, evs), e.before, e.now); slot.None? || LockedOut(slot)
  {
  }

  /** What a sweep does to a key that is not locked out, by its history alone. If the latest request is older than the
      cutoff, the key is locked out exactly if some request since it had no entry was refused, or the burst is zero, and
      otherwise it loses its entry; if not, nothing happens. */
  lemma SweepFollowsHistory(cfg: Config, evs: seq<Event>, before: real, now: real)
    requires cfg.Valid() && Timely(evs + [Sweep(before, now)])
    requires Cleaned(cfg, evs).Some? && !LockedOut(Cleaned(cfg, evs))
    ensures LatestAsk(evs).Some?
    ensures var old', new' := Cleaned(cfg, evs), Swept(cfg, Cleaned(cfg, evs), before, now);
            var stale := LatestAsk(evs).value < before - MinTTL(cfg);
            && (LockedOut(new') <==> stale && (Refusals(cfg, evs) > 0 || cfg.burst == 0))
            && (new'.None? <==> stale && Refusals(cfg, evs) == 0 && cfg.burst > 0)
            && (!stale ==> new' == old')
  {
    var all := evs + [Sweep(before, now)];
    assert forall i | 0 <= i < |evs| :: all[i] == evs[i];
    EntryRemembers(cfg, evs);
    LockoutCondition(cfg, evs, before, now);
  }

  /** The cleanup age in numbers: an hour, or the whole seconds of the refill time, ten times. */
  lemma MinTTLExact(cfg: Config)
    requires cfg.Valid()
    ensures cfg.rate == 0.0 ==> MinTTL(cfg) == 3600.0
    ensures cfg.rate > 0.0 ==>
              var refill := cfg.burst as real / cfg.rate;
              && MinTTL(cfg) >= 3600.0 && MinTTL(cfg) > 10.0 * (refill - 1.0)
              && (MinTTL(cfg) == 3600.0 || MinTTL(cfg) <= 10.0 * refill)
  {
    if cfg.rate > 0.0 {
      QuotientNonNegative(cfg.burst as real, cfg.rate);
      TruncateLaw(cfg.burst as real / cfg.rate);
    }
  }

  // ----- the average rate -----

  ghost function Grants(cfg: Config, evs: seq<Event>, a: real): nat {
    if evs == [] then 0
    else
      var past, e := evs[..|evs| - 1], evs[|evs| - 1];
      Grants(cfg, past, a) + if e.Ask? && a <= e.now && Request(cfg, Cleaned(cfg, past), e.now).1 then 1 else 0
  }

  /** What the unswept bucket still holds; a missing one is full. */
  ghost function Funds(cfg: Config, slot: Option<Limiter>, now: real): real {
    match slot
    case None => cfg.burst as real
    case Some(l) => Level(cfg.rate, l.bucket, now)
  }

  lemma FundsGrow(cfg: Config, slot: Option<Limiter>, now: real, later: real)
    requires cfg.rate >= 0.0 && now <= later
    ensures Funds(cfg, slot, later) <= Funds(cfg, slot, now) + Flow(cfg.rate, later - now)
  {
    if slot.Some? {
      var b := slot.value.bucket;
      FlowAdds(cfg.rate, now - b.last, later - now);
      assert now - b.last + (later - now) == later - b.last;
    }
  }

  lemma AskCosts(cfg: Config, slot: Option<Limiter>, now: real)
    requires cfg.Valid() && (slot.Some? ==> EntryValid(cfg, slot.value, now))
    ensures Funds(cfg, Request(cfg, slot, now).0, now)
            == Funds(cfg, slot, now) - if Request(cfg, slot, now).1 then 1.0 else 0.0
  {
    var after := Request(cfg, slot, now).0.value.bucket;
    LevelAtLast(cfg.rate, NewBucket(cfg.burst, now));
    if Request(cfg, slot, now).1 {
      assert after.last == now;
      LevelAtLast(cfg.rate, after);
    }
  }

  lemma FundsInRange(cfg: Config, evs: seq<Event>)
    requires cfg.Valid() && Timely(evs) && evs != []
    ensures 0.0 <= Funds(cfg, Uncleaned(cfg, evs), evs[|evs| - 1].now) <= cfg.burst as real
    ensures var slot := Uncleaned(cfg, evs); slot.Some? ==> EntryValid(cfg, slot.value, evs[|evs| - 1].now)
  {
    RunsRelated(cfg, evs);
    var slot := Uncleaned(cfg, evs);
    if slot.Some? {
      LevelNonNegative(cfg, slot.value.bucket, evs[|evs| - 1].now);
    }
  }

  /** One event costs what it grants. */
  lemma EventCosts(cfg: Config, past: seq<Event>, e: Event)
    requires cfg.Valid() && Timely(past + [e])
    ensures Timely(past) && (past != [] ==> past[|past| - 1].now <= e.now)
    ensures Funds(cfg, Uncleaned(cfg, past + [e]), e.now) <=
            Funds(cfg, Uncleaned(cfg, past), e.now) -
            if e.Ask? && Request(cfg, Cleaned(cfg, past), e.now).1 then 1.0 else 0.0
  {
    var evs, slot := past + [e], Uncleaned(cfg, past);
    assert evs[..|past|] == past;
    assert forall i | 0 <= i < |past| :: evs[i] == past[i];
    if past != [] {
      assert evs[|past| - 1].now <= evs[|past|].now;
      FundsInRange(cfg, past);
    }
    if e.Ask? {
      SweepsNeverLoosen(cfg, past, e.now);
      AskCosts(cfg, slot, e.now);
    }
  }

  lemma FundsCapped(cfg: Config, slot: Option<Limiter>, now: real)
    requires slot.Some? ==> slot.value.bucket.burst == cfg.burst
    ensures Funds(cfg, slot, now) <= cfg.burst as real
  {
  }

  /** The budget of a stretch from a to now: a full bucket plus the inflow. */
  ghost function Budget(cfg: Config, a: real, now: real): real {
    cfg.burst as real + Flow(cfg.rate, now - a)
  }

  lemma BudgetGrows(cfg: Config, a: real, since: real, now: real)
    requires cfg.rate >= 0.0 && a <= now
    ensures Budget(cfg, a, now) >= cfg.burst as real
    ensures Budget(cfg, a, now) == Budget(cfg, a, since) + Flow(cfg.rate, now - since)
  {
    assert Flow(cfg.rate, now - a) >= 0.0;
    FlowAdds(cfg.rate, since - a, now - since);
    assert since - a + (now - since) == now - a;
  }

  /** Grants since a, plus what the bucket holds now, stay within the budget. */
  ghost predicate Funded(cfg: Config, evs: seq<Event>, a: real, now: real) {
    if now < a then Grants(cfg, evs, a) == 0
    else Grants(cfg, evs, a) as real + Funds(cfg, Uncleaned(cfg, evs), now) <= Budget(cfg, a, now)
  }

  lemma FundedLater(cfg: Config, evs: seq<Event>, a: real, since: real, now: real)
    requires cfg.rate >= 0.0 && since <= now && Funded(cfg, evs, a, since)
    requires var slot := Uncleaned(cfg, evs); slot.Some? ==> slot.value.bucket.burst == cfg.burst
    ensures Funded(cfg, evs, a, now)
  {
    var slot := Uncleaned(cfg, evs);
    if a <= now {
      BudgetGrows(cfg, a, since, now);
      FundsCapped(cfg, slot, now);
      FundsGrow(cfg, slot, since, now);
    }
  }

  lemma FundedStep(cfg: Config, past: seq<Event>, e: Event, a: real)
    requires cfg.Valid() && Timely(past + [e]) && Funded(cfg, past, a, e.now)
    ensures Funded(cfg, past + [e], a, e.now)
  {
    EventCosts(cfg, past, e);
    assert (past + [e])[..|past|] == past;
  }

  lemma {:induction false} GrantsFunded(cfg: Config, evs: seq<Event>, a: real)
    requires cfg.Valid() && Timely(evs) && evs != []
    ensures Funded(cfg, evs, a, evs[|evs| - 1].now)
  {
    var past, e := evs[..|evs| - 1], evs[|evs| - 1];
    assert evs == past + [e];
    EventCosts(cfg, past, e);
    if past != [] {
      GrantsFunded(cfg, past, a);
      FundsInRange(cfg, past);
      FundedLater(cfg, past, a, past[|past| - 1].now, e.now);
    } else if a <= e.now {
      BudgetGrows(cfg, a, a, e.now);
    }
    FundedStep(cfg, past, e, a);
  }

  /** In any run, swept or not, at most burst + rate * length requests of a key are granted in a stretch of the given
      length ending at its latest event. */
  lemma RateBound(cfg: Config, evs: seq<Event>, length: real)
    requires cfg.Valid() && Timely(evs) && evs != [] && length >= 0.0
    ensures Grants(cfg, evs, evs[|evs| - 1].now - length) as real <= cfg.burst as real + cfg.rate * length
  {
    var now := evs[|evs| - 1].now;
    var a := now - length;
    GrantsFunded(cfg, evs, a);
    FundsInRange(cfg, evs);
    BudgetOf(cfg, a, now, length);
  }

  lemma BudgetOf(cfg: Config, a: real, now: real, length: real)
    requires now - a == length
    ensures Budget(cfg, a, now) == cfg.burst as real + cfg.rate * length
  {
  }

  // ----- retry-after -----

  function Ceil(x: real): int { -((-x).Floor) }

  /** Seconds a denied caller is told to wait; the reservation that measures the delay is cancelled. */
  function RetryAfter(rate: real, b: Bucket, now: real): int
    requires rate > 0.0
  {
    var seconds := Ceil((1.0 - Level(rate, b, now)) / rate);
    if seconds < 1 then 1 else seconds
  }

  /** The advertised wait is the least one: any shorter whole number of seconds, at least one, is not enough. */
  lemma RetryAfterIsLeast(rate: real, b: Bucket, now: real, seconds: int)
    requires rate > 0.0 && b.burst >= 1 && !Take(rate, b, now).1
    requires 1 <= seconds < RetryAfter(rate, b, now)
    ensures !Take(rate, b, now + seconds as real).1
  {
    var missing := 1.0 - Level(rate, b, now);
    var delay := missing / rate;
    QuotientNonNegative(missing, rate);
    assert seconds as real < delay;
    FlowStrict(rate, seconds as real, delay);
    FlowAdds(rate, now - b.last, seconds as real);
    assert now - b.last + seconds as real == now + seconds as real - b.last;
    assert Flow(rate, delay) == missing;
  }

  lemma FlowStrict(rate: real, x: real, y: real)
    requires rate > 0.0 && x < y
    ensures Flow(rate, x) < Flow(rate, y)
  {
    PositiveProduct(rate, y - x);
    FlowAdds(rate, x, y - x);
    assert x + (y - x) == y;
  }

  lemma PositiveProduct(x: real, y: real)
    requires x > 0.0 && y > 0.0
    ensures x * y > 0.0
  {
  }

  /** After the advertised wait the bucket holds a token again, if it can hold one at all. */
  lemma RetryAfterSuffices(rate: real, b: Bucket, now: real, later: real)
    requires rate > 0.0 && b.burst >= 1 && !Take(rate, b, now).1
    requires later >= now + RetryAfter(rate, b, now) as real
    ensures Take(rate, b, later).1
  {
    var missing := 1.0 - Level(rate, b, now);
    var delay := missing / rate;
    QuotientNonNegative(missing, rate);
    assert delay * rate == missing;
    assert later - now >= delay;
    FlowMonotone(rate, now - b.last + delay, later - b.last);
    FlowAdds(rate, now - b.last, delay);
    assert Level(rate, b, now) == b.tokens + Flow(rate, now - b.last);
    assert Flow(rate, delay) == missing;
    assert b.tokens + Flow(rate, later - b.last) >= 1.0;
  }
}
