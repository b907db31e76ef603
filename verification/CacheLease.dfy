/**
 The cache middleware over a store shared by several processes. The check-and-lease script is one
 atomic step, and so is every other store command. Times are milliseconds of the store's clock.
 */
module CacheLease {
  import opened CacheEntry
  import opened Common

  const LEASE_TTL: nat := 30_000

  /** A stored value, by what the script and the JSON decoder can make of it. */
  datatype Raw =
    | Junk                                    // too short, or not starting with a brace
    | Undecodable                             // starts with a brace, but is no JSON object
    | Unstamped(decoded: Option<Entry>)       // an object without a numeric stored_at_ms
    | Stamped(entry: Entry, storedAt: int)

  /** A step of a run and the store's time at it. */
  datatype Moment = Moment(step: nat, time: int)

  /** A value under a cache key, and when it was written. */
  datatype Slot = Slot(raw: Raw, expires: int, written: Moment)

  datatype Status = LeaseFailed | CacheHit(raw: Raw) | LeaseAcquired

  predicate Present(slot: Option<Slot>, now: int) { slot.Some? && now < slot.value.expires }

  predicate LeaseLive(lease: Option<int>, now: int) { lease.Some? && now < lease.value }

  /** SET NX EX on the lease key. */
  function TryLease(lease: Option<int>, now: int): (Option<int>, Status) {
    if LeaseLive(lease, now) then (lease, LeaseFailed) else (Some(now + LEASE_TTL), LeaseAcquired)
  }

  /** The script's effect on one cache key and its lease; a negative maxAge turns age checking off. */
  function Script(slot: Option<Slot>, lease: Option<int>, now: int, maxAge: int): (Option<Slot>, Option<int>, Status) {
    if Present(slot, now) then
      var raw := slot.value.raw;
      var rejected :=
        || raw.Junk?
        || (maxAge >= 0 && (raw.Undecodable? || raw.Unstamped?))
        || (maxAge >= 0 && raw.Stamped? && (now - raw.storedAt < 0 || now - raw.storedAt > maxAge));
      if rejected then (None, TryLease(lease, now).0, TryLease(lease, now).1)
      else (slot, lease, CacheHit(raw))
    else (None, TryLease(lease, now).0, TryLease(lease, now).1)
  }

  /** What counts as a fresh entry. */
  predicate Fresh(raw: Raw, now: int, maxAge: int) {
    if maxAge < 0 then !raw.Junk? else raw.Stamped? && 0 <= now - raw.storedAt <= maxAge
  }

  /** The script hits exactly when a fresh value is present, and then changes nothing; otherwise it leaves no value and
      a live lease, acquired exactly when none was live. */
  lemma ScriptOutcome(slot: Option<Slot>, lease: Option<int>, now: int, maxAge: int)
    ensures var (slot', lease', status) := Script(slot, lease, now, maxAge);
            if Present(slot, now) && Fresh(slot.value.raw, now, maxAge) then
              slot' == slot && lease' == lease && status == CacheHit(slot.value.raw)
            else
              && slot' == None && LeaseLive(lease', now)
              && status == (if LeaseLive(lease, now) then LeaseFailed else LeaseAcquired)
              && (LeaseLive(lease, now) ==> lease' == lease)
  {
  }

  function Decode(raw: Raw): Option<Entry> {
    match raw
    case Stamped(entry, _) => Some(entry)
    case Unstamped(decoded) => decoded
    case _ => None
  }

  /** What can be decoded: a stamped value, or an object without stamp that has the form of an entry. */
  lemma DecodeExact(raw: Raw, e: Entry)
    ensures Decode(raw) == Some(e) <==> raw == Unstamped(Some(e)) || (raw.Stamped? && raw.entry == e)
  {
  }

  // ----- processes -----

  /** A successful handler call: the key and the request it answered, and the response. */
  datatype Handled = Handled(key: string, provider: string, model: string, response: Response)

  datatype Pc =
    | Checking
    | Waiting                    // the lease was not available, or the check failed
    | Purging                    // the re-read found undecodable data
    | Executing
    | Storing(response: Response)
    | Releasing
    | Hit(slot: Slot, readAt: int)
    | LateHit(slot: Slot, readAt: int)
    | Finished

  /** `checkedAt` is when the process's script ran without a hit. */
  datatype Process = Process(
    pc: Pc, key: string, provider: string, model: string, acquired: bool, checkedAt: Option<Moment>)

  datatype World = World(
    now: int, step: nat, slots: map<string, Slot>, leases: map<string, int>,
    handled: seq<Handled>, processes: seq<Process>)

  /** The environment of one step: time that passes, a failing store, a reply that a Redis server cuts at its nil, a
      cancelled context, the handler's answer, the process's own clock and the entry's lifetime. */
  datatype Choice = Choice(
    elapsed: nat, storeFails: bool, replyCut: bool, cancelled: bool, answer: Option<Response>, clock: int, ttl: nat)

  function At<V>(m: map<string, V>, key: string): Option<V> {
    if key in m then Some(m[key]) else None
  }

  function Put<V>(m: map<string, V>, key: string, v: Option<V>): map<string, V> {
    if v.Some? then m[key := v.value] else m - {key}
  }

  function ActOn(w: World, p: Process, ch: Choice, maxAge: int): (r: (World, Process))
    ensures (r.0.now, r.0.step, r.0.processes) == (w.now, w.step, w.processes)
  {
    match p.pc
    case Checking =>
      if ch.storeFails then (w, p.(pc := Waiting))
      else
        var (slot, lease, status) := Script(At(w.slots, p.key), At(w.leases, p.key), w.now, maxAge);
        var w1 := w.(slots := Put(w.slots, p.key, slot), leases := Put(w.leases, p.key, lease));
        (match status
         case CacheHit(raw) =>
           (w1, p.(pc := if Decode(raw).Some? then Hit(slot.value, w.now) else Waiting))
         // A lease whose reply is cut is taken, but the process does not know it has it.
         case LeaseAcquired =>
           (w1, p.(pc := if ch.replyCut then Waiting else Executing,
                   acquired := !ch.replyCut, checkedAt := Some(Moment(w.step, w.now))))
         case LeaseFailed => (w1, p.(pc := Waiting, checkedAt := Some(Moment(w.step, w.now)))))
    case Waiting =>
      if ch.cancelled then (w, p.(pc := Finished))
      else if ch.storeFails || !Present(At(w.slots, p.key), w.now) then (w, p.(pc := Executing))
      else
        var slot := w.slots[p.key];
        (w, p.(pc := if Decode(slot.raw).Some? then LateHit(slot, w.now) else Purging))
    case Purging => (if ch.storeFails then w else w.(slots := w.slots - {p.key}), p.(pc := Executing))
    case Executing =>
      if ch.answer.None? then (w, p.(pc := Releasing))
      else (w.(handled := w.handled + [Handled(p.key, p.provider, p.model, ch.answer.value)]),
            p.(pc := Storing(ch.answer.value)))
    case Storing(response) =>
      var raw := Stamped(ToEntry(response, p.provider, p.model), ch.clock);
      (if ch.storeFails then w else w.(slots := w.slots[p.key := Slot(raw, w.now + ch.ttl, Moment(w.step, w.now))]),
       p.(pc := Releasing))
    case Releasing =>
      (if p.acquired && !ch.storeFails then w.(leases := w.leases - {p.key}) else w, p.(pc := Finished))
    case Hit(_, _) => (w, p)
    case LateHit(_, _) => (w, p)
    case Finished => (w, p)
  }

  function StepBy(w: World, i: nat, ch: Choice, maxAge: int): World
    requires i < |w.processes|
  {
    var (w1, p1) := ActOn(w.(now := w.now + ch.elapsed), w.processes[i], ch, maxAge);
    w1.(step := w.step + 1, processes := w1.processes[i := p1])
  }

  /** Processes in their initial state over any store, whose values were written earlier. */
  ghost predicate Initial(w: World) {
    && w.handled == []
    && (forall key | key in w.slots :: w.slots[key].written.step < w.step && w.slots[key].written.time <= w.now)
    && (forall i | 0 <= i < |w.processes| ::
          w.processes[i].pc.Checking? && !w.processes[i].acquired && w.processes[i].checkedAt.None?)
  }

  function Exec(start: World, schedule: seq<(nat, Choice)>, maxAge: int): (w: World)
    ensures |w.processes| == |start.processes|
  {
    if schedule == [] then start
    else
      var w, step := Exec(start, schedule[..|schedule| - 1], maxAge), schedule[|schedule| - 1];
      if step.0 < |w.processes| then StepBy(w, step.0, step.1, maxAge) else w
  }

  // ----- where entries come from -----

  /** The entry is the compact form of some handled response for the key. */
  ghost predicate FromHandler(handled: seq<Handled>, key: string, e: Entry) {
    exists h :: h in handled && h.key == key && e == ToEntry(h.response, h.provider, h.model)
  }

  /** The value was there from the start and is unchanged, or a process of the run wrote it for a handled response. */
  ghost predicate Origin(start: World, handled: seq<Handled>, key: string, slot: Slot) {
    || (key in start.slots && slot == start.slots[key])
    || (slot.raw.Stamped? && FromHandler(handled, key, slot.raw.entry) && start.step <= slot.written.step)
  }

  ghost predicate SlotValid(start: World, w: World, key: string) {
    key in w.slots ==>
      && Origin(start, w.handled, key, w.slots[key])
      && w.slots[key].written.step < w.step && w.slots[key].written.time <= w.now
  }

  ghost predicate Newer(a: Moment, b: Moment) { a.step > b.step && a.time >= b.time }

  /** While a process waits after a check that missed, whatever is under its key was written since, and so is what it
      then finds. */
  ghost predicate SeesNewer(start: World, now: int, step: nat, slots: map<string, Slot>, p: Process) {
    && (p.pc.Checking? ==> p.checkedAt.None?)
    && (p.pc.Hit? || p.pc.LateHit? ==> p.pc.slot.written.time <= p.pc.readAt)
    && (p.checkedAt.Some? ==>
          && start.step <= p.checkedAt.value.step < step && p.checkedAt.value.time <= now
          && (p.pc.Waiting? && p.key in slots ==> Newer(slots[p.key].written, p.checkedAt.value))
          && (p.pc.LateHit? ==> Newer(p.pc.slot.written, p.checkedAt.value)))
  }

  ghost predicate Sourced(start: World, handled: seq<Handled>, p: Process, maxAge: int) {
    && (p.pc.Storing? ==> Handled(p.key, p.provider, p.model, p.pc.response) in handled)
    && (p.pc.Hit? || p.pc.LateHit? ==>
          Origin(start, handled, p.key, p.pc.slot) && Decode(p.pc.slot.raw).Some?)
    && (p.pc.Hit? && maxAge >= 0 ==>
          p.pc.slot.raw.Stamped? && 0 <= p.pc.readAt - p.pc.slot.raw.storedAt <= maxAge)
  }

  ghost predicate ProcessValid(start: World, w: World, p: Process, maxAge: int) {
    SeesNewer(start, w.now, w.step, w.slots, p) && Sourced(start, w.handled, p, maxAge)
  }

  ghost predicate Valid(start: World, w: World, maxAge: int) {
    && start.step <= w.step
    && (forall key: string :: SlotValid(start, w, key))
    && (forall i | 0 <= i < |w.processes| :: ProcessValid(start, w, w.processes[i], maxAge))
  }

  lemma MoreHandled(start: World, handled: seq<Handled>, more: seq<Handled>, key: string, slot: Slot)
    requires handled <= more && Origin(start, handled, key, slot)
    ensures Origin(start, more, key, slot)
  {
    if slot.raw.Stamped? && FromHandler(handled, key, slot.raw.entry) {
      var e := slot.raw.entry;
      var h :| h in handled && h.key == key && e == ToEntry(h.response, h.provider, h.model);
      assert h in more;
    }
  }

  /** What one step does to the world around its process. */
  lemma StepIsAct(w: World, i: nat, ch: Choice, maxAge: int)
    requires i < |w.processes|
    ensures var (w1, p1) := ActOn(w.(now := w.now + ch.elapsed), w.processes[i], ch, maxAge);
            var w' := StepBy(w, i, ch, maxAge);
            && w'.step == w.step + 1 && w'.now == w.now + ch.elapsed
            && w'.slots == w1.slots && w'.handled == w1.handled && w'.processes[i] == p1
  {
  }

  lemma ActGrows(w: World, p: Process, ch: Choice, maxAge: int)
    ensures w.handled <= ActOn(w, p, ch, maxAge).0.handled
    ensures var slots := ActOn(w, p, ch, maxAge).0.slots;
            forall key | key in slots ::
              (key in w.slots && slots[key] == w.slots[key])
              || (p.pc.Storing? && key == p.key
                  && slots[key].written == Moment(w.step, w.now)
                  && slots[key].raw == Stamped(ToEntry(p.pc.response, p.provider, p.model), ch.clock))
  {
  }

  lemma StepSlots(start: World, w: World, i: nat, ch: Choice, maxAge: int)
    requires Valid(start, w, maxAge) && i < |w.processes|
    ensures forall key: string :: SlotValid(start, StepBy(w, i, ch, maxAge), key)
  {
    var w', p := StepBy(w, i, ch, maxAge), w.processes[i];
    assert ProcessValid(start, w, p, maxAge);
    StepIsAct(w, i, ch, maxAge);
    ActGrows(w.(now := w.now + ch.elapsed), p, ch, maxAge);
    forall key: string ensures SlotValid(start, w', key) {
      assert SlotValid(start, w, key);
      if key in w.slots && key in w'.slots && w'.slots[key] == w.slots[key] {
        MoreHandled(start, w.handled, w'.handled, key, w.slots[key]);
      } else if key in w'.slots {
        StoredFromHandler(w.handled, w'.handled, p);
      }
    }
  }

  lemma StoredFromHandler(handled: seq<Handled>, more: seq<Handled>, p: Process)
    requires handled <= more && p.pc.Storing? && Handled(p.key, p.provider, p.model, p.pc.response) in handled
    ensures FromHandler(more, p.key, ToEntry(p.pc.response, p.provider, p.model))
  {
    var h := Handled(p.key, p.provider, p.model, p.pc.response);
    assert h in more;
  }

  lemma StepOther(start: World, w: World, i: nat, ch: Choice, maxAge: int, p: Process)
    requires Valid(start, w, maxAge) && i < |w.processes| && ProcessValid(start, w, p, maxAge)
    ensures ProcessValid(start, StepBy(w, i, ch, maxAge), p, maxAge)
  {
    var w' := StepBy(w, i, ch, maxAge);
    StepIsAct(w, i, ch, maxAge);
    ActGrows(w.(now := w.now + ch.elapsed), w.processes[i], ch, maxAge);
    OtherKeeps(start, w, w', p, maxAge);
  }

  /** A process that does not move stays valid while responses are added and values only change for newer ones. */
  lemma OtherKeeps(start: World, w: World, w': World, p: Process, maxAge: int)
    requires ProcessValid(start, w, p, maxAge)
    requires w'.now >= w.now && w'.step == w.step + 1 && w.handled <= w'.handled
    requires forall key | key in w'.slots ::
               (key in w.slots && w'.slots[key] == w.slots[key]) || w'.slots[key].written == Moment(w.step, w'.now)
    ensures ProcessValid(start, w', p, maxAge)
  {
    if p.pc.Hit? || p.pc.LateHit? {
      MoreHandled(start, w.handled, w'.handled, p.key, p.pc.slot);
    }
  }

  lemma StepSelf(start: World, w: World, i: nat, ch: Choice, maxAge: int)
    requires i < |w.processes| && start.step <= w.step
    requires ProcessValid(start, w, w.processes[i], maxAge) && SlotValid(start, w, w.processes[i].key)
    ensures ProcessValid(start, StepBy(w, i, ch, maxAge), StepBy(w, i, ch, maxAge).processes[i], maxAge)
  {
    ActSelf(start, w, w.processes[i], ch, maxAge);
    StepIsAct(w, i, ch, maxAge);
  }

  /** Each step leaves its process valid one step later. */
  lemma ActSelf(start: World, w: World, p: Process, ch: Choice, maxAge: int)
    requires start.step <= w.step && ProcessValid(start, w, p, maxAge) && SlotValid(start, w, p.key)
    ensures var (w1, p1) := ActOn(w.(now := w.now + ch.elapsed), p, ch, maxAge);
            SeesNewer(start, w.now + ch.elapsed, w.step + 1, w1.slots, p1) && Sourced(start, w1.handled, p1, maxAge)
  {
    match p.pc {
      case Checking => CheckSelf(start, w, p, ch, maxAge);
      case Waiting => WaitSelf(start, w, p, ch, maxAge);
      case _ =>
    }
  }

  lemma CheckSelf(start: World, w: World, p: Process, ch: Choice, maxAge: int)
    requires start.step <= w.step && p.pc.Checking? && ProcessValid(start, w, p, maxAge) && SlotValid(start, w, p.key)
    ensures var (w1, p1) := ActOn(w.(now := w.now + ch.elapsed), p, ch, maxAge);
            SeesNewer(start, w.now + ch.elapsed, w.step + 1, w1.slots, p1) && Sourced(start, w1.handled, p1, maxAge)
  {
  }

  lemma WaitSelf(start: World, w: World, p: Process, ch: Choice, maxAge: int)
    requires p.pc.Waiting? && ProcessValid(start, w, p, maxAge) && SlotValid(start, w, p.key)
    ensures var (w1, p1) := ActOn(w.(now := w.now + ch.elapsed), p, ch, maxAge);
            SeesNewer(start, w.now + ch.elapsed, w.step + 1, w1.slots, p1) && Sourced(start, w1.handled, p1, maxAge)
  {
  }

  lemma {:induction false} ExecValid(start: World, schedule: seq<(nat, Choice)>, maxAge: int)
    requires Initial(start)
    ensures Valid(start, Exec(start, schedule, maxAge), maxAge)
  {
    if schedule != [] {
      var past, step := schedule[..|schedule| - 1], schedule[|schedule| - 1];
      var w := Exec(start, past, maxAge);
      ExecValid(start, past, maxAge);
      if step.0 < |w.processes| {
        StepValid(start, w, step.0, step.1, maxAge);
      }
    }
  }

  lemma StepValid(start: World, w: World, i: nat, ch: Choice, maxAge: int)
    requires Valid(start, w, maxAge) && i < |w.processes|
    ensures Valid(start, StepBy(w, i, ch, maxAge), maxAge)
  {
    var w' := StepBy(w, i, ch, maxAge);
    StepSlots(start, w, i, ch, maxAge);
    assert ProcessValid(start, w, w.processes[i], maxAge) && SlotValid(start, w, w.processes[i].key);
    StepSelf(start, w, i, ch, maxAge);
    forall j | 0 <= j < |w'.processes| ensures ProcessValid(start, w', w'.processes[j], maxAge) {
      if j != i {
        StepOther(start, w, i, ch, maxAge, w.processes[j]);
      }
    }
  }

  /** In every run over any store, each hit, checked or late, is a value the store held from the start, unchanged, or
      the compact form of a response that an earlier handler call gave for that key; over an empty store it is always
      the latter. */
  lemma HitsComeFromHandlers(start: World, schedule: seq<(nat, Choice)>, maxAge: int, i: nat)
    requires Initial(start) && i < |start.processes|
    ensures var w := Exec(start, schedule, maxAge);
            var p := w.processes[i];
            p.pc.Hit? || p.pc.LateHit? ==>
              && Decode(p.pc.slot.raw).Some?
              && ((p.key in start.slots && p.pc.slot == start.slots[p.key])
                  || FromHandler(w.handled, p.key, Decode(p.pc.slot.raw).value))
              && (start.slots == map[] ==> FromHandler(w.handled, p.key, Decode(p.pc.slot.raw).value))
  {
    ExecValid(start, schedule, maxAge);
    var w := Exec(start, schedule, maxAge);
    assert ProcessValid(start, w, w.processes[i], maxAge);
  }

  /** What the unchecked re-read returns was written after the process's own check had found nothing fresh, in steps and
      in the store's time. */
  lemma LateHitsAreNewer(start: World, schedule: seq<(nat, Choice)>, maxAge: int, i: nat)
    requires Initial(start) && i < |start.processes|
    ensures var p := Exec(start, schedule, maxAge).processes[i];
            p.pc.LateHit? && p.checkedAt.Some? ==>
              && p.pc.slot.written.step > p.checkedAt.value.step
              && p.checkedAt.value.time <= p.pc.slot.written.time <= p.pc.readAt
  {
    ExecValid(start, schedule, maxAge);
    var w := Exec(start, schedule, maxAge);
    assert ProcessValid(start, w, w.processes[i], maxAge);
  }

  /** A step takes a lease away only to give back its own, and then does so unless the store fails. */
  lemma LeasesAreGivenBack(w: World, p: Process, ch: Choice, maxAge: int, key: string)
    requires key in w.leases
    ensures key !in ActOn(w, p, ch, maxAge).0.leases <==>
            p.pc.Releasing? && p.acquired && key == p.key && !ch.storeFails
  {
  }

  // ----- how old hits are -----

  /** At every step the process's clock is within `skew` of the store's. */
  ghost predicate Synchronized(start: World, schedule: seq<(nat, Choice)>, maxAge: int, skew: int) {
    forall k: nat | k < |schedule| :: InStep(Exec(start, schedule[..k], maxAge), schedule[k].1, skew)
  }

  ghost predicate InStep(w: World, ch: Choice, skew: int) {
    -skew <= ch.clock - (w.now + ch.elapsed) <= skew
  }

  /** A value written in the run carries a stamp close to the time of the writing. */
  ghost predicate StampedRight(start: World, slot: Slot, skew: int) {
    start.step <= slot.written.step && slot.raw.Stamped? ==>
      -skew <= slot.raw.storedAt - slot.written.time <= skew
  }

  ghost predicate AllStampedRight(start: World, w: World, skew: int) {
    && (forall key | key in w.slots :: StampedRight(start, w.slots[key], skew))
    && (forall i | 0 <= i < |w.processes| && (w.processes[i].pc.Hit? || w.processes[i].pc.LateHit?) ::
          StampedRight(start, w.processes[i].pc.slot, skew))
  }

  /** A hit is on the value under the key, unless it was one already. */
  lemma HitsReadSlots(w: World, p: Process, ch: Choice, maxAge: int)
    ensures var p1 := ActOn(w, p, ch, maxAge).1;
            p1.pc.Hit? || p1.pc.LateHit? ==> p1.pc == p.pc || (p.key in w.slots && p1.pc.slot == w.slots[p.key])
  {
  }

  lemma StepStampedRight(start: World, w: World, i: nat, ch: Choice, maxAge: int, skew: int)
    requires AllStampedRight(start, w, skew) && i < |w.processes| && InStep(w, ch, skew)
    ensures AllStampedRight(start, StepBy(w, i, ch, maxAge), skew)
  {
    var w', p := StepBy(w, i, ch, maxAge), w.processes[i];
    StepIsAct(w, i, ch, maxAge);
    ActGrows(w.(now := w.now + ch.elapsed), p, ch, maxAge);
    HitsReadSlots(w.(now := w.now + ch.elapsed), p, ch, maxAge);
    assert forall j | 0 <= j < |w'.processes| && j != i :: w'.processes[j] == w.processes[j];
  }

  lemma {:induction false} ExecStampedRight(start: World, schedule: seq<(nat, Choice)>, maxAge: int, skew: int)
    requires Initial(start) && Synchronized(start, schedule, maxAge, skew)
    ensures AllStampedRight(start, Exec(start, schedule, maxAge), skew)
  {
    if schedule != [] {
      var n := |schedule| - 1;
      var past := schedule[..n];
      forall k: nat | k < n ensures InStep(Exec(start, past[..k], maxAge), past[k].1, skew) {
        assert past[..k] == schedule[..k];
      }
      ExecStampedRight(start, past, maxAge, skew);
      var w, step := Exec(start, past, maxAge), schedule[n];
      assert InStep(w, step.1, skew);
      if step.0 < |w.processes| {
        StepStampedRight(start, w, step.0, step.1, maxAge, skew);
      }
    }
  }

  /** With age checking on, a checked hit's stamp is at most maxAge old and not from the future; and if clocks agree up
      to `skew`, a value of the run was really written at most maxAge + skew before it is served. */
  lemma HitsAreFresh(start: World, schedule: seq<(nat, Choice)>, maxAge: int, skew: int, i: nat)
    requires Initial(start) && i < |start.processes| && maxAge >= 0
    ensures var p := Exec(start, schedule, maxAge).processes[i];
            p.pc.Hit? ==>
              && p.pc.slot.raw.Stamped? && 0 <= p.pc.readAt - p.pc.slot.raw.storedAt <= maxAge
              && (Synchronized(start, schedule, maxAge, skew) && start.step <= p.pc.slot.written.step ==>
                    0 <= p.pc.readAt - p.pc.slot.written.time <= maxAge + skew)
  {
    ExecValid(start, schedule, maxAge);
    var w := Exec(start, schedule, maxAge);
    assert ProcessValid(start, w, w.processes[i], maxAge);
    if Synchronized(start, schedule, maxAge, skew) {
      ExecStampedRight(start, schedule, maxAge, skew);
    }
  }

  /** A late hit is fresh as well, if the process's check ran: its value is no older than the time since that check, and
      if clocks agree up to `skew`, so is its stamp. In particular with agreeing clocks its age is between zero and the
      time from check to re-read. */
  lemma LateHitsAreFresh(start: World, schedule: seq<(nat, Choice)>, maxAge: int, skew: int, i: nat)
    requires Initial(start) && i < |start.processes|
    ensures var p := Exec(start, schedule, maxAge).processes[i];
            p.pc.LateHit? && p.checkedAt.Some? ==>
              var waited := p.pc.readAt - p.checkedAt.value.time;
              && 0 <= p.pc.readAt - p.pc.slot.written.time <= waited
              && p.pc.slot.raw.Stamped?
              && (Synchronized(start, schedule, maxAge, skew) ==>
                    -skew <= p.pc.readAt - p.pc.slot.raw.storedAt <= waited + skew)
  {
    ExecValid(start, schedule, maxAge);
    var w := Exec(start, schedule, maxAge);
    assert ProcessValid(start, w, w.processes[i], maxAge);
    if Synchronized(start, schedule, maxAge, skew) {
      ExecStampedRight(start, schedule, maxAge, skew);
    }
  }

  // ----- a late hit whose check failed -----

  /** The run goes on with one step of one process, whose clock agrees with the store's. */
  lemma GoOn(start: World, schedule: seq<(nat, Choice)>, maxAge: int, i: nat, ch: Choice)
    requires Synchronized(start, schedule, maxAge, 0) && i < |start.processes|
    requires InStep(Exec(start, schedule, maxAge), ch, 0)
    ensures Exec(start, schedule + [(i, ch)], maxAge) == StepBy(Exec(start, schedule, maxAge), i, ch, maxAge)
    ensures Synchronized(start, schedule + [(i, ch)], maxAge, 0)
  {
    var longer := schedule + [(i, ch)];
    assert longer[..|schedule|] == schedule;
    forall k: nat | k < |longer| ensures InStep(Exec(start, longer[..k], maxAge), longer[k].1, 0) {
      if k < |schedule| {
        assert longer[..k] == schedule[..k];
      }
    }
  }

  const ANY_RESPONSE := Response("", "stop", [], Usage(0, 0, 0, 0), 0, map[], "")

  /** One process has cached its answer at time 0, to be kept for longer than `age`; another has not begun. */
  lemma FirstAnswers(maxAge: int, age: nat) returns (start: World, schedule: seq<(nat, Choice)>)
    ensures Initial(start) && start.slots == map[] && |start.processes| == 2
    ensures Synchronized(start, schedule, maxAge, 0)
    ensures var w := Exec(start, schedule, maxAge);
            && w.now == 0 && w.processes[1] == Process(Checking, "k", "", "", false, None)
            && w.slots == map["k" := Slot(Stamped(ToEntry(ANY_RESPONSE, "", ""), 0), age + 1, Moment(2, 0))]
  {
    var p := Process(Checking, "k", "", "", false, None);
    var ch := Choice(0, false, false, false, Some(ANY_RESPONSE), 0, age + 1);
    start := World(0, 0, map[], map[], [], [p, p]);
    schedule := [];
    GoOn(start, schedule, maxAge, 0, ch);
    schedule := schedule + [(0, ch)];
    var w := Exec(start, schedule, maxAge);
    assert w.processes[0].pc == Executing && w.processes[1] == p && w.slots == map[];
    GoOn(start, schedule, maxAge, 0, ch);
    schedule := schedule + [(0, ch)];
    w := Exec(start, schedule, maxAge);
    assert w.processes[0].pc == Storing(ANY_RESPONSE) && w.processes[1] == p && w.slots == map[];
    GoOn(start, schedule, maxAge, 0, ch);
    schedule := schedule + [(0, ch)];
  }

  lemma FailedCheck(w: World, i: nat, ch: Choice, maxAge: int)
    requires i < |w.processes| && w.processes[i].pc.Checking? && ch.storeFails
    ensures var w' := StepBy(w, i, ch, maxAge);
            w'.slots == w.slots && w'.now == w.now + ch.elapsed && w'.processes[i] == w.processes[i].(pc := Waiting)
  {
  }

  lemma LateRead(w: World, i: nat, ch: Choice, maxAge: int)
    requires i < |w.processes| && w.processes[i].pc.Waiting? && !ch.cancelled && !ch.storeFails
    requires w.processes[i].key in w.slots
    requires var slot := w.slots[w.processes[i].key]; w.now + ch.elapsed < slot.expires && slot.raw.Stamped?
    ensures StepBy(w, i, ch, maxAge).processes[i] ==
            w.processes[i].(pc := LateHit(w.slots[w.processes[i].key], w.now + ch.elapsed))
  {
  }

  /** A process whose check fails may be served a value of any age, whatever maxAge is and even with agreeing clocks:
      the bound on late hits needs the check to have run. */
  lemma UncheckedHitsHaveAnyAge(maxAge: int, age: nat) returns (start: World, schedule: seq<(nat, Choice)>)
    ensures Initial(start) && start.slots == map[] && |start.processes| == 2
    ensures Synchronized(start, schedule, maxAge, 0)
    ensures var p := Exec(start, schedule, maxAge).processes[1];
            && p.pc.LateHit? && p.checkedAt.None?
            && p.pc.slot.raw.Stamped? && p.pc.readAt - p.pc.slot.raw.storedAt == age
  {
    start, schedule := FirstAnswers(maxAge, age);
    var fails, rereads := Choice(age, true, false, false, None, age, 0), Choice(0, false, false, false, None, age, 0);
    FailedCheck(Exec(start, schedule, maxAge), 1, fails, maxAge);
    GoOn(start, schedule, maxAge, 1, fails);
    schedule := schedule + [(1, fails)];
    LateRead(Exec(start, schedule, maxAge), 1, rereads, maxAge);
    GoOn(start, schedule, maxAge, 1, rereads);
    schedule := schedule + [(1, rereads)];
  }

  // ----- one request -----

  datatype Reply = Cached(entry: Entry) | Answered(response: Response) | HandlerError | Cancelled

  /** Which store commands of one request fail: check, second read, deletion of bad data, write, release of the lease.
      */
  datatype Faults = Faults(check: bool, reread: bool, purge: bool, write: bool, release: bool)

  /** The value a response is stored as. */
  function Stored(provider: string, model: string, response: Response,
                  now: int, clock: int, ttl: nat, step: nat): Slot
  {
    Slot(Stamped(ToEntry(response, provider, model), clock), now + ttl, Moment(step, now))
  }

  /** The object and the interleaved machine store the same. */
  lemma StoredAsInMachine(w: World, p: Process, ch: Choice, maxAge: int)
    requires p.pc.Storing? && !ch.storeFails
    ensures ActOn(w, p, ch, maxAge).0.slots ==
            w.slots[p.key := Stored(p.provider, p.model, p.pc.response, w.now, ch.clock, ch.ttl, w.step)]
  {
  }

  /** A stored response is hit exactly until its lifetime ends, if age checking is off or its stamp is neither too old
      nor from the future; and what is hit then is that response. */
  lemma StoredIsServed(provider: string, model: string, response: Response, written: int, clock: int, ttl: nat,
                       step: nat, lease: Option<int>, now: int, maxAge: int)
    ensures var slot := Stored(provider, model, response, written, clock, ttl, step);
            var status := Script(Some(slot), lease, now, maxAge).2;
            && (status.CacheHit? <==> now < written + ttl && (maxAge >= 0 ==> 0 <= now - clock <= maxAge))
            && (status.CacheHit? ==> Decode(status.raw) == Some(ToEntry(response, provider, model)))
  {
  }

  /** A lease that was free is live from now on for LEASE_TTL, and no longer. */
  lemma LeaseLasts(lease: Option<int>, now: int, later: int)
    requires !LeaseLive(lease, now)
    ensures LeaseLive(TryLease(lease, now).0, later) <==> later < now + 30_000
  {
  }

  class CacheMiddleware {
    var slots: map<string, Slot>
    var leases: map<string, int>
    var hits: int
    var misses: int
    var errors: int
    const maxAge: int

    constructor (maxAge: int)
      ensures slots == map[] && leases == map[] && hits == misses == errors == 0 && this.maxAge == maxAge
    {
      slots, leases, hits, misses, errors := map[], map[], 0, 0, 0;
      this.maxAge := maxAge;
    }

    method AcquireLease(key: string, now: int) returns (status: Status)
      modifies this`leases
      ensures (At(leases, key), status) == TryLease(old(At(leases, key)), now)
      ensures leases - {key} == old(leases) - {key}
    {
      if key in leases && now < leases[key] {
        return LeaseFailed;
      }
      leases := leases[key := now + LEASE_TTL];
      return LeaseAcquired;
    }

    method RunScript(key: string, now: int) returns (status: Status)
      modifies this`slots, this`leases
      ensures (At(slots, key), At(leases, key), status) ==
              Script(old(At(slots, key)), old(At(leases, key)), now, maxAge)
      ensures slots - {key} == old(slots) - {key} && leases - {key} == old(leases) - {key}
      ensures status.CacheHit? ==> slots == old(slots) && leases == old(leases)
    {
      if key in slots && now < slots[key].expires {
        var raw := slots[key].raw;
        var rejected := raw.Junk?;
        if !rejected && maxAge >= 0 {
          if raw.Stamped? {
            var age := now - raw.storedAt;
            rejected := age < 0 || age > maxAge;
          } else {
            rejected := true;
          }
        }
        if !rejected {
          return CacheHit(raw);
        }
      }
      slots := slots - {key};
      status := AcquireLease(key, now);
    }

    /** The response cached under the key, if it is present and can be decoded; undecodable data is deleted, unless the
        deletion fails, which nobody notices. */
    method Get(key: string, now: int, purgeFails: bool) returns (entry: Option<Entry>)
      modifies this`slots
      ensures entry == if Present(old(At(slots, key)), now) then Decode(old(slots)[key].raw) else None
      ensures slots == if Present(old(At(slots, key)), now) && entry.None? && !purgeFails then old(slots) - {key}
                       else old(slots)
    {
      if key !in slots || now >= slots[key].expires {
        return None;
      }
      entry := Decode(slots[key].raw);
      if entry.None? && !purgeFails {
        slots := slots - {key};
      }
    }

    method Set(key: string, provider: string, model: string, response: Response,
               now: int, clock: int, ttl: nat, step: nat)
      modifies this`slots
      ensures slots == old(slots)[key := Stored(provider, model, response, now, clock, ttl, step)]
    {
      var entry := ResponseToEntry(response, provider, model);
      slots := slots[key := Slot(Stamped(entry, clock), now + ttl, Moment(step, now))];
    }

    /**
     A request. `faults` says which of its store commands fail, `replyCut` that the reply of a missed
     check is cut at its nil, `cancelled` that the context ends during a wait, and `meanwhile` what
     another process may write under its key by then. A servable, decodable value is served and
     nothing changes. A request that has to wait is served what it then finds, if that is decodable,
     unless it is cancelled. Otherwise the handler decides, its response replaces whatever was
     cached, and a lease is given back exactly if this request took it, knows so, and its release
     does not fail.
     */
    method Handle(key: string, provider: string, model: string, now: int, later: int, clock: int, ttl: nat, step: nat,
                  faults: Faults, replyCut: bool, cancelled: bool, meanwhile: Option<Slot>, answer: Option<Response>)
      returns (reply: Reply)
      modifies this
      ensures slots - {key} == old(slots) - {key} && leases - {key} == old(leases) - {key}
      ensures var slot, lease := old(At(slots, key)), old(At(leases, key));
              var servable := !faults.check && Present(slot, now) && Fresh(slot.value.raw, now, maxAge);
              if servable && Decode(slot.value.raw).Some? then
                && reply == Cached(Decode(slot.value.raw).value)
                && At(slots, key) == slot && At(leases, key) == lease
                && (hits, misses, errors) == old((hits + 1, misses, errors))
              else
                var takes := !faults.check && !servable && !LeaseLive(lease, now);
                var waits := !takes || replyCut;
                var kept := if faults.check || servable then slot else None;
                var found := if waits && meanwhile.Some? then meanwhile else kept;
                var seen := waits && !faults.reread && Present(found, later);
                && At(leases, key) == (if !takes then lease
                                       else if replyCut || faults.release then Some(now + LEASE_TTL)
                                       else None)
                && if waits && cancelled then
                     && reply == Cancelled && At(slots, key) == found
                     && (hits, misses, errors) == old((hits, misses + 1, errors))
                   else if seen && Decode(found.value.raw).Some? then
                     && reply == Cached(Decode(found.value.raw).value) && At(slots, key) == found
                     && (hits, misses, errors) == old((hits + 1, misses + 1, errors))
                   else
                     && reply == (if answer.Some? then Answered(answer.value) else HandlerError)
                     && At(slots, key) == (if answer.Some? && !faults.write
                                           then Some(Stored(provider, model, answer.value, later, clock, ttl, step))
                                           else if seen && !faults.purge then None
                                           else found)
                     && (hits, misses, errors)
                        == old((hits, misses + 1, errors + if faults.check || servable || replyCut then 1 else 0))
    {
      var acquired, failed, response := Check(key, now, faults.check, replyCut);
      if response.Some? {
        hits := hits + 1;
        return Cached(response.value);
      }
      reply := Miss(key, provider, model, later, clock, ttl, step,
                    faults, cancelled, meanwhile, answer, acquired, failed);
    }

    /** A request whose check brought no response. */
    method Miss(key: string, provider: string, model: string, later: int, clock: int, ttl: nat, step: nat,
                faults: Faults, cancelled: bool, meanwhile: Option<Slot>, answer: Option<Response>,
                acquired: bool, failed: bool)
      returns (reply: Reply)
      modifies this
      ensures slots - {key} == old(slots) - {key}
      ensures leases == if acquired && !faults.release && !reply.Cached? then old(leases) - {key} else old(leases)
      ensures var found := if !acquired && meanwhile.Some? then meanwhile else old(At(slots, key));
              var seen := !acquired && !faults.reread && Present(found, later);
              if !acquired && cancelled then
                && reply == Cancelled && At(slots, key) == found
                && (hits, misses, errors) == old((hits, misses + 1, errors))
              else if seen && Decode(found.value.raw).Some? then
                && reply == Cached(Decode(found.value.raw).value) && At(slots, key) == found
                && (hits, misses, errors) == old((hits + 1, misses + 1, errors))
              else
                && reply == (if answer.Some? then Answered(answer.value) else HandlerError)
                && At(slots, key) == (if answer.Some? && !faults.write
                                      then Some(Stored(provider, model, answer.value, later, clock, ttl, step))
                                      else if seen && !faults.purge then None
                                      else found)
                && (hits, misses, errors) == old((hits, misses + 1, errors + if failed then 1 else 0))
    {
      misses := misses + 1;
      if !acquired {
        reply := AwaitOther(key, later, faults, cancelled, meanwhile);
        if reply.Cancelled? {
          return;
        }
        if reply.Cached? {
          hits := hits + 1;
          return;
        }
      }
      if failed {
        errors := errors + 1;
      }
      reply := Execute(key, provider, model, later, clock, ttl, step, faults.write, answer);
      if acquired && !faults.release {
        leases := leases - {key};
      }
    }

    /** The check as the process sees it: whether it has the lease, whether the check failed, and the cached response.
        */
    method Check(key: string, now: int, fails: bool, replyCut: bool)
      returns (acquired: bool, failed: bool, response: Option<Entry>)
      modifies this`slots, this`leases
      ensures slots - {key} == old(slots) - {key} && leases - {key} == old(leases) - {key}
      ensures var (slot, lease, status) := Script(old(At(slots, key)), old(At(leases, key)), now, maxAge);
              if fails then
                (acquired, failed, response) == (false, true, None) && slots == old(slots) && leases == old(leases)
              else
                && At(slots, key) == slot && At(leases, key) == lease
                && response == (if status.CacheHit? then Decode(status.raw) else None)
                && acquired == (status.LeaseAcquired? && !replyCut)
                && failed == (if status.CacheHit? then response.None? else replyCut)
    {
      if fails {
        return false, true, None;
      }
      var status := RunScript(key, now);
      match status {
        case CacheHit(raw) => return false, Decode(raw).None?, Decode(raw);
        case LeaseAcquired => return !replyCut, replyCut, None;
        case LeaseFailed => return false, replyCut, None;
      }
    }

    /** The wait, and the single look after it; a miss is answered by nothing. */
    method AwaitOther(key: string, later: int, faults: Faults, cancelled: bool, meanwhile: Option<Slot>)
      returns (reply: Reply)
      modifies this`slots
      ensures slots - {key} == old(slots) - {key}
      ensures var found := if meanwhile.Some? then meanwhile else old(At(slots, key));
              var seen := !faults.reread && Present(found, later);
              if cancelled then reply == Cancelled && At(slots, key) == found
              else if seen && Decode(found.value.raw).Some? then
                reply == Cached(Decode(found.value.raw).value) && At(slots, key) == found
              else
                reply == HandlerError && At(slots, key) == if seen && !faults.purge then None else found
    {
      if meanwhile.Some? {
        slots := slots[key := meanwhile.value];
      }
      if cancelled {
        return Cancelled;
      }
      if faults.reread {
        return HandlerError;
      }
      var again := Get(key, later, faults.purge);
      return if again.Some? then Cached(again.value) else HandlerError;
    }

    method Execute(key: string, provider: string, model: string, later: int, clock: int, ttl: nat, step: nat,
                   writeFails: bool, answer: Option<Response>)
      returns (reply: Reply)
      modifies this`slots
      ensures reply == if answer.Some? then Answered(answer.value) else HandlerError
      ensures slots == if answer.None? || writeFails then old(slots)
                       else old(slots)[key := Stored(provider, model, answer.value, later, clock, ttl, step)]
    {
      if answer.None? {
        return HandlerError;
      }
      if !writeFails {
        Set(key, provider, model, answer.value, later, clock, ttl, step);
      }
      return Answered(answer.value);
    }
  }

  /** What one request meets: times, clock, lifetime of what it stores, faults, a cut reply, a cancellation, another
      process's write, and the handler's answer. */
  datatype Circumstances = Circumstances(
    now: int, later: int, clock: int, ttl: nat, step: nat,
    faults: Faults, replyCut: bool, cancelled: bool, meanwhile: Option<Slot>, answer: Option<Response>)

  /**
   What the cache is for. The first request is answered by the handler, and its write succeeds; the
   second asks for the same key. If its check succeeds it is served the first one's response while
   that is alive and its stamp acceptable. From the end of the lifetime on, or when the check rejects
   the stamp, its own handler answers, unless somebody else wrote or the context ended.
   */
  method AnswerThenServe(c: CacheMiddleware, key: string, provider: string, model: string, x: Circumstances,
                         provider': string, model': string, y: Circumstances)
    returns (first: Reply, second: Reply)
    requires x.later <= y.now <= y.later && !x.faults.write
    modifies c
    ensures var alive := y.now < x.later + x.ttl;
            var accepted := c.maxAge >= 0 ==> 0 <= y.now - x.clock <= c.maxAge;
            first.Answered? ==>
              && x.answer == Some(first.response)
              && (!y.faults.check && alive && accepted ==> second == Cached(ToEntry(first.response, provider, model)))
              && ((!alive || (!y.faults.check && !accepted)) && y.meanwhile.None? && !y.cancelled ==>
                    second == if y.answer.Some? then Answered(y.answer.value) else HandlerError)
  {
    first := c.Handle(key, provider, model, x.now, x.later, x.clock, x.ttl, x.step,
                      x.faults, x.replyCut, x.cancelled, x.meanwhile, x.answer);
    second := c.Handle(key, provider', model', y.now, y.later, y.clock, y.ttl, y.step,
                       y.faults, y.replyCut, y.cancelled, y.meanwhile, y.answer);
  }
}
