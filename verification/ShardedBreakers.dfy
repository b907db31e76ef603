/**
 The sharded, capped table of circuit breakers under every interleaving of its callers.
 A caller past the fast path works while holding the lock of one shard, so the state of the
 callers that matter is the stage of each shard's lock holder.
 */
module ShardedBreakers {
  import opened Common

  const SHARDS: nat := 16
  const HASH_MULTIPLIER := 31
  const TWO_TO_THE_32 := 0x1_0000_0000

  type Bytes = seq<bv8>

  // ----- shard selection -----

  function Hash(key: Bytes): (h: nat)
    ensures h < TWO_TO_THE_32
  {
    if key == [] then 0
    else (Hash(key[..|key| - 1]) * HASH_MULTIPLIER + key[|key| - 1] as nat) % TWO_TO_THE_32
  }

  function ShardOf(key: Bytes): (i: nat)
    ensures i < SHARDS
  {
    Hash(key) % SHARDS
  }

  method GetShard(key: Bytes) returns (i: nat)
    ensures i == ShardOf(key)
  {
    var hash: nat := 0;
    for k := 0 to |key|
      invariant hash == Hash(key[..k])
    {
      assert key[..k + 1][..k] == key[..k];
      hash := (hash * HASH_MULTIPLIER + key[k] as nat) % TWO_TO_THE_32;
    }
    assert key[..|key|] == key;
    return hash % SHARDS;
  }

  /** The key read as a number in base 31, without any limit on its size. */
  function Number(key: Bytes): nat {
    if key == [] then 0 else key[0] as nat * PowerOf31(|key| - 1) + Number(key[1..])
  }

  function PowerOf31(n: nat): nat {
    if n == 0 then 1 else 31 * PowerOf31(n - 1)
  }

  lemma {:induction false} NumberOfSnoc(key: Bytes, b: bv8)
    ensures Number(key + [b]) == 31 * Number(key) + b as nat
  {
    if key == [] {
      assert [b][1..] == [];
      assert [] + [b] == [b];
    } else {
      assert (key + [b])[1..] == key[1..] + [b];
      NumberOfSnoc(key[1..], b);
      Regroup(key[0] as nat, PowerOf31(|key| - 1));
    }
  }

  lemma Regroup(x: nat, p: nat)
    ensures x * (31 * p) == 31 * (x * p)
  {
  }

  /** Wrapping at every step is the same as wrapping once: the hash is the key's number modulo 2 to the 32. */
  lemma {:induction false} HashIsNumber(key: Bytes)
    ensures Hash(key) == Number(key) % TWO_TO_THE_32
  {
    if key != [] {
      var past, last := key[..|key| - 1], key[|key| - 1];
      HashIsNumber(past);
      NumberOfSnoc(past, last);
      assert past + [last] == key;
      WrapsOnce(Number(past), last as nat);
    }
  }

  /** So the shard is the key's number modulo sixteen. */
  lemma ShardIsNumber(key: Bytes)
    ensures ShardOf(key) == Number(key) % 16
  {
    HashIsNumber(key);
    ModuloSixteen(Number(key));
  }

  lemma ModuloSixteen(n: nat)
    ensures n % TWO_TO_THE_32 % 16 == n % 16
  {
    var q := n / TWO_TO_THE_32;
    assert n == n % TWO_TO_THE_32 + 16 * (0x1000_0000 * q);
  }

  lemma WrapsOnce(x: nat, b: nat)
    ensures ((x % TWO_TO_THE_32) * 31 + b) % TWO_TO_THE_32 == (31 * x + b) % TWO_TO_THE_32
  {
    var q := x / TWO_TO_THE_32;
    assert 31 * x + b == (x % TWO_TO_THE_32) * 31 + b + TWO_TO_THE_32 * (31 * q);
  }

  // ----- the table -----

  /** Where the holder of a shard's lock stands; `key` is what it asked for. */
  datatype Holder =
    | Free
    | Locked(key: Bytes)     // about to look again under the lock
    | Missing(key: Bytes)    // about to increment the total
    | Counted(key: Bytes)    // below the cap: about to insert
    | Refused(key: Bytes)    // above the cap: about to roll back

  datatype Shard = Shard(holder: Holder, breakers: map<Bytes, nat>)

  /** `created` lists every breaker ever made, as (key, breaker); a breaker is named by its place in the list. */
  datatype Table = Table(shards: seq<Shard>, total: int, created: seq<Bytes>)

  datatype Outcome = Silent | Found(breaker: nat) | Rejected

  function Empty(): Table {
    Table(seq(SHARDS, _ => Shard(Free, map[])), 0, [])
  }

  /** The fast path: one read under the shard's read lock. */
  function Lookup(t: Table, key: Bytes): Outcome
    requires |t.shards| == SHARDS
  {
    var breakers := t.shards[ShardOf(key)].breakers;
    if key in breakers then Found(breakers[key]) else Silent
  }

  predicate Exceeds(total: int, maxBreakers: int) { maxBreakers > 0 && total > maxBreakers }

  /** A caller asking for `key` moves on by one atomic step: it takes the free lock, or as its holder does the next
      thing. */
  function Advance(t: Table, key: Bytes, maxBreakers: int): (r: (Table, Outcome))
    requires |t.shards| == SHARDS
    ensures |r.0.shards| == SHARDS
  {
    var i := ShardOf(key);
    var shard := t.shards[i];
    match shard.holder
    case Free => (t.(shards := t.shards[i := shard.(holder := Locked(key))]), Silent)
    case Locked(k) =>
      if k in shard.breakers
      then (t.(shards := t.shards[i := shard.(holder := Free)]), Found(shard.breakers[k]))
      else (t.(shards := t.shards[i := shard.(holder := Missing(k))]), Silent)
    case Missing(k) =>
      var holder := if Exceeds(t.total + 1, maxBreakers) then Refused(k) else Counted(k);
      (t.(total := t.total + 1, shards := t.shards[i := shard.(holder := holder)]), Silent)
    case Counted(k) =>
      var breaker := |t.created|;
      (Table(t.shards[i := Shard(Free, shard.breakers[k := breaker])], t.total, t.created + [k]), Found(breaker))
    case Refused(k) =>
      (t.(total := t.total - 1, shards := t.shards[i := shard.(holder := Free)]), Rejected)
  }

  function Exec(maxBreakers: int, schedule: seq<Bytes>): (t: Table)
    ensures |t.shards| == SHARDS
  {
    if schedule == [] then Empty()
    else Advance(Exec(maxBreakers, schedule[..|schedule| - 1]), schedule[|schedule| - 1], maxBreakers).0
  }

  // ----- counting -----

  ghost function Stored(shards: seq<Shard>): nat {
    if shards == [] then 0 else Stored(shards[..|shards| - 1]) + |shards[|shards| - 1].breakers|
  }

  ghost function Weight(h: Holder, counted: bool, refused: bool): nat {
    if (h.Counted? && counted) || (h.Refused? && refused) then 1 else 0
  }

  /** How many lock holders stand between their increment and their insertion or rollback. */
  ghost function Pending(shards: seq<Shard>, counted: bool, refused: bool): nat {
    if shards == [] then 0
    else Pending(shards[..|shards| - 1], counted, refused) + Weight(shards[|shards| - 1].holder, counted, refused)
  }

  lemma {:induction false} ReplaceShard(shards: seq<Shard>, i: nat, s: Shard)
    requires i < |shards|
    ensures Stored(shards[i := s]) == Stored(shards) - |shards[i].breakers| + |s.breakers|
    ensures forall c, r :: Pending(shards[i := s], c, r) ==
                           Pending(shards, c, r) - Weight(shards[i].holder, c, r) + Weight(s.holder, c, r)
  {
    var n := |shards| - 1;
    if i == n {
      assert shards[i := s][..n] == shards[..n];
    } else {
      assert shards[i := s][..n] == shards[..n][i := s];
      ReplaceShard(shards[..n], i, s);
    }
  }

  lemma {:induction false} PendingBounds(shards: seq<Shard>, i: nat)
    ensures Pending(shards, true, true) == Pending(shards, true, false) + Pending(shards, false, true)
    ensures Pending(shards, true, true) <= |shards|
    ensures i < |shards| ==> Weight(shards[i].holder, true, true) <= Pending(shards, true, true)
    ensures i < |shards| && Weight(shards[i].holder, true, true) == 0 ==> Pending(shards, true, true) < |shards|
  {
    if shards != [] {
      PendingBounds(shards[..|shards| - 1], i);
    }
  }

  lemma {:induction false} EmptyCounts(n: nat)
    ensures var shards := seq(n, _ => Shard(Free, map[]));
            Stored(shards) == 0 && forall c, r :: Pending(shards, c, r) == 0
  {
    if n > 0 {
      var shards := seq(n, _ => Shard(Free, map[]));
      assert shards[..n - 1] == seq(n - 1, _ => Shard(Free, map[]));
      EmptyCounts(n - 1);
    }
  }

  // ----- the invariant -----

  ghost predicate KeysInPlace(t: Table)
    requires |t.shards| == SHARDS
  {
    && (forall i | 0 <= i < SHARDS && !t.shards[i].holder.Free? :: ShardOf(t.shards[i].holder.key) == i)
    && (forall i |
          0 <= i < SHARDS &&
          (t.shards[i].holder.Missing? || t.shards[i].holder.Counted? || t.shards[i].holder.Refused?) ::
          t.shards[i].holder.key !in t.shards[i].breakers)
  }

  /** What shard i holds under k, if anything, is the breaker made for k, and k belongs there. */
  ghost predicate StoredRight(t: Table, i: nat, k: Bytes)
    requires |t.shards| == SHARDS && i < SHARDS
  {
    k in t.shards[i].breakers ==>
      var b := t.shards[i].breakers[k];
      ShardOf(k) == i && b < |t.created| && t.created[b] == k
  }

  /** The breakers ever created are exactly the stored ones, each under its own key in its own shard. */
  ghost predicate CreatedOnce(t: Table)
    requires |t.shards| == SHARDS
  {
    && (forall i: nat, k: Bytes | i < SHARDS :: StoredRight(t, i, k))
    && (forall b | 0 <= b < |t.created| ::
          t.created[b] in t.shards[ShardOf(t.created[b])].breakers
          && t.shards[ShardOf(t.created[b])].breakers[t.created[b]] == b)
  }

  ghost predicate TotalBalanced(t: Table) {
    t.total == Stored(t.shards) + Pending(t.shards, true, true)
  }

  ghost predicate WithinCap(t: Table, maxBreakers: int) {
    maxBreakers > 0 ==> Stored(t.shards) + Pending(t.shards, true, false) <= maxBreakers
  }

  ghost predicate Valid(t: Table, maxBreakers: int)
    requires |t.shards| == SHARDS
  {
    KeysInPlace(t) && CreatedOnce(t) && TotalBalanced(t) && WithinCap(t, maxBreakers)
  }

  lemma StepCounts(t: Table, key: Bytes, maxBreakers: int)
    requires |t.shards| == SHARDS && Valid(t, maxBreakers)
    ensures var t' := Advance(t, key, maxBreakers).0; TotalBalanced(t') && WithinCap(t', maxBreakers)
  {
    var i := ShardOf(key);
    var t' := Advance(t, key, maxBreakers).0;
    PendingBounds(t.shards, i);
    ReplaceShard(t.shards, i, t'.shards[i]);
    assert t'.shards == t.shards[i := t'.shards[i]];
    PendingBounds(t'.shards, i);
  }

  lemma StepKeysInPlace(t: Table, key: Bytes, maxBreakers: int)
    requires |t.shards| == SHARDS && Valid(t, maxBreakers)
    ensures KeysInPlace(Advance(t, key, maxBreakers).0)
  {
    var i := ShardOf(key);
    var t' := Advance(t, key, maxBreakers).0;
    assert forall j | 0 <= j < SHARDS && j != i :: t'.shards[j] == t.shards[j];
  }

  lemma StepCreatedOnce(t: Table, key: Bytes, maxBreakers: int)
    requires |t.shards| == SHARDS && Valid(t, maxBreakers)
    ensures CreatedOnce(Advance(t, key, maxBreakers).0)
  {
    var i := ShardOf(key);
    var t' := Advance(t, key, maxBreakers).0;
    assert forall j | 0 <= j < SHARDS && j != i :: t'.shards[j] == t.shards[j];
    if !t.shards[i].holder.Counted? {
      forall j: nat, k: Bytes | j < SHARDS ensures StoredRight(t', j, k) {
        assert StoredRight(t, j, k);
      }
    } else {
      InsertKeepsCreatedOnce(t, i, t');
    }
  }

  lemma InsertKeepsCreatedOnce(t: Table, i: nat, t': Table)
    requires |t.shards| == SHARDS && KeysInPlace(t) && CreatedOnce(t) && |t'.shards| == SHARDS
    requires i < SHARDS && t.shards[i].holder.Counted?
    requires var k := t.shards[i].holder.key;
             && t'.created == t.created + [k]
             && t'.shards == t.shards[i := Shard(Free, t.shards[i].breakers[k := |t.created|])]
    ensures CreatedOnce(t')
  {
    var k := t.shards[i].holder.key;
    forall b | 0 <= b < |t'.created|
      ensures t'.created[b] in t'.shards[ShardOf(t'.created[b])].breakers
      ensures t'.shards[ShardOf(t'.created[b])].breakers[t'.created[b]] == b
    {
      if b < |t.created| {
        assert t.created[b] in t.shards[ShardOf(t.created[b])].breakers;
        assert t.created[b] != k;
      }
    }
    forall j: nat, key: Bytes | j < SHARDS ensures StoredRight(t', j, key) {
      assert StoredRight(t, j, key);
    }
  }

  lemma {:induction false} ExecValid(maxBreakers: int, schedule: seq<Bytes>)
    ensures Valid(Exec(maxBreakers, schedule), maxBreakers)
  {
    if schedule == [] {
      EmptyCounts(SHARDS);
    } else {
      var before, key := Exec(maxBreakers, schedule[..|schedule| - 1]), schedule[|schedule| - 1];
      ExecValid(maxBreakers, schedule[..|schedule| - 1]);
      StepCounts(before, key, maxBreakers);
      StepKeysInPlace(before, key, maxBreakers);
      StepCreatedOnce(before, key, maxBreakers);
    }
  }

  /** Under every interleaving the stored breakers respect a positive cap, and `total` is the stored ones plus the
      callers between increment and insertion or rollback. */
  lemma CapHolds(maxBreakers: int, schedule: seq<Bytes>)
    ensures var t := Exec(maxBreakers, schedule);
            && (maxBreakers > 0 ==> Stored(t.shards) <= maxBreakers)
            && t.total == Stored(t.shards) + Pending(t.shards, true, true)
            && Pending(t.shards, true, true) <= SHARDS
  {
    ExecValid(maxBreakers, schedule);
    PendingBounds(Exec(maxBreakers, schedule).shards, 0);
  }

  /** No key is ever given two breakers, and a breaker once stored is found by every later lookup. */
  lemma OneBreakerPerKey(maxBreakers: int, schedule: seq<Bytes>, b: nat, c: nat)
    ensures var t := Exec(maxBreakers, schedule);
            && (b < |t.created| && c < |t.created| && t.created[b] == t.created[c] ==> b == c)
            && (b < |t.created| ==> Lookup(t, t.created[b]) == Found(b))
  {
    ExecValid(maxBreakers, schedule);
  }

  lemma {:induction false} CreatedGrows(maxBreakers: int, schedule: seq<Bytes>, k: nat)
    requires k <= |schedule|
    ensures Exec(maxBreakers, schedule[..k]).created <= Exec(maxBreakers, schedule).created
    decreases |schedule| - k
  {
    if k == |schedule| {
      assert schedule[..k] == schedule;
    } else {
      assert schedule[..k + 1][..k] == schedule[..k];
      CreatedGrows(maxBreakers, schedule, k + 1);
    }
  }

  /** The breaker a lookup finds at some moment is the one every later lookup of that key finds. */
  lemma LookupIsStable(maxBreakers: int, schedule: seq<Bytes>, k: nat, key: Bytes)
    requires k <= |schedule|
    requires Lookup(Exec(maxBreakers, schedule[..k]), key).Found?
    ensures Lookup(Exec(maxBreakers, schedule), key) == Lookup(Exec(maxBreakers, schedule[..k]), key)
  {
    ExecValid(maxBreakers, schedule[..k]);
    assert StoredRight(Exec(maxBreakers, schedule[..k]), ShardOf(key), key);
    CreatedGrows(maxBreakers, schedule, k);
    var b := Lookup(Exec(maxBreakers, schedule[..k]), key).breaker;
    assert Exec(maxBreakers, schedule).created[b] == key;
    OneBreakerPerKey(maxBreakers, schedule, b, b);
  }

  /** A breaker that a step hands out is the one then stored under the key that was asked for. */
  lemma HandsOutTheStored(maxBreakers: int, schedule: seq<Bytes>, key: Bytes)
    requires var t := Exec(maxBreakers, schedule);
             !t.shards[ShardOf(key)].holder.Free? && Advance(t, key, maxBreakers).1.Found?
    ensures var t := Exec(maxBreakers, schedule);
            var (t', outcome) := Advance(t, key, maxBreakers);
            var asked := t.shards[ShardOf(key)].holder.key;
            && Lookup(t', asked) == outcome
            && outcome.breaker < |t'.created| && t'.created[outcome.breaker] == asked
  {
    ExecValid(maxBreakers, schedule);
    var t := Exec(maxBreakers, schedule);
    var asked := t.shards[ShardOf(key)].holder.key;
    assert StoredRight(t, ShardOf(key), asked);
  }

  /** Without a positive cap nobody is ever refused. */
  lemma {:induction false} NoCapNoRefusal(maxBreakers: int, schedule: seq<Bytes>, i: nat)
    requires maxBreakers <= 0 && i < SHARDS
    ensures !Exec(maxBreakers, schedule).shards[i].holder.Refused?
  {
    if schedule != [] {
      NoCapNoRefusal(maxBreakers, schedule[..|schedule| - 1], i);
    }
  }

  // ----- what a refusal means -----

  /** Every place under the cap is taken by a stored breaker or promised to a caller about to insert one. */
  ghost predicate Committed(t: Table, maxBreakers: int) {
    Stored(t.shards) + Pending(t.shards, true, false) == maxBreakers
  }

  lemma StepCommitted(t: Table, key: Bytes, maxBreakers: int)
    requires |t.shards| == SHARDS && Valid(t, maxBreakers) && maxBreakers > 0
    requires Pending(t.shards, false, true) > 0 ==> Committed(t, maxBreakers)
    ensures var t' := Advance(t, key, maxBreakers).0;
            Committed(t, maxBreakers) || Pending(t'.shards, false, true) > 0 ==> Committed(t', maxBreakers)
  {
    var i := ShardOf(key);
    var t' := Advance(t, key, maxBreakers).0;
    PendingBounds(t.shards, i);
    ReplaceShard(t.shards, i, t'.shards[i]);
    assert t'.shards == t.shards[i := t'.shards[i]];
  }

  lemma {:induction false} RefusedMeansCommitted(maxBreakers: int, schedule: seq<Bytes>)
    requires maxBreakers > 0
    ensures var t := Exec(maxBreakers, schedule); Pending(t.shards, false, true) > 0 ==> Committed(t, maxBreakers)
  {
    if schedule == [] {
      EmptyCounts(SHARDS);
    } else {
      var past, key := schedule[..|schedule| - 1], schedule[|schedule| - 1];
      ExecValid(maxBreakers, past);
      RefusedMeansCommitted(maxBreakers, past);
      StepCommitted(Exec(maxBreakers, past), key, maxBreakers);
    }
  }

  lemma {:induction false} HoldersPending(shards: seq<Shard>)
    ensures Pending(shards, true, false) == 0 <==> forall i | 0 <= i < |shards| :: !shards[i].holder.Counted?
    ensures Pending(shards, false, true) == 0 <==> forall i | 0 <= i < |shards| :: !shards[i].holder.Refused?
  {
    if shards != [] {
      HoldersPending(shards[..|shards| - 1]);
    }
  }

  /** While some caller stands refused, the stored breakers and the callers about to insert make up the cap exactly. So
      the table is really full exactly when nobody is about to insert, and short of it by at most 15. */
  lemma RefusalIsExact(maxBreakers: int, schedule: seq<Bytes>, key: Bytes)
    requires maxBreakers > 0 && Exec(maxBreakers, schedule).shards[ShardOf(key)].holder.Refused?
    ensures var t := Exec(maxBreakers, schedule);
            && Stored(t.shards) + Pending(t.shards, true, false) == maxBreakers
            && (Stored(t.shards) == maxBreakers <==> forall i | 0 <= i < SHARDS :: !t.shards[i].holder.Counted?)
            && Stored(t.shards) >= maxBreakers - (SHARDS - 1)
  {
    var t := Exec(maxBreakers, schedule);
    RefusedMeansCommitted(maxBreakers, schedule);
    HoldersPending(t.shards);
    PendingBounds(t.shards, ShardOf(key));
    RefusedNotCounted(t.shards, ShardOf(key));
  }

  lemma {:induction false} RefusedNotCounted(shards: seq<Shard>, i: nat)
    requires i < |shards| && shards[i].holder.Refused?
    ensures Pending(shards, true, false) < |shards| && Pending(shards, false, true) > 0
  {
    var n := |shards| - 1;
    PendingBounds(shards[..n], 0);
    if i < n {
      RefusedNotCounted(shards[..n], i);
    }
  }

  /** One refusal decides the table for good: ever after the cap is made up by the stored breakers and the callers about
      to insert, so whenever no caller stands there the table is full. */
  lemma {:induction false} RefusalIsFinal(maxBreakers: int, schedule: seq<Bytes>, k: nat, key: Bytes)
    requires maxBreakers > 0 && k <= |schedule|
    requires Exec(maxBreakers, schedule[..k]).shards[ShardOf(key)].holder.Refused?
    ensures var t := Exec(maxBreakers, schedule);
            && Committed(t, maxBreakers)
            && ((forall i | 0 <= i < SHARDS :: !t.shards[i].holder.Counted?) ==> Stored(t.shards) == maxBreakers)
    decreases |schedule|
  {
    if k == |schedule| {
      assert schedule[..k] == schedule;
      RefusalIsExact(maxBreakers, schedule, key);
    } else {
      var past := schedule[..|schedule| - 1];
      assert past[..k] == schedule[..k];
      RefusalIsFinal(maxBreakers, past, k, key);
      ExecValid(maxBreakers, past);
      StepCommitted(Exec(maxBreakers, past), schedule[|schedule| - 1], maxBreakers);
    }
    HoldersPending(Exec(maxBreakers, schedule).shards);
  }

  /** A caller about to increment is refused exactly when every place under the cap is taken or promised; then at least
      all places but 15 are taken. */
  lemma RefusalCondition(maxBreakers: int, schedule: seq<Bytes>, key: Bytes)
    requires maxBreakers > 0 && Exec(maxBreakers, schedule).shards[ShardOf(key)].holder.Missing?
    ensures var t := Exec(maxBreakers, schedule);
            && (Advance(t, key, maxBreakers).0.shards[ShardOf(key)].holder.Refused? <==> Committed(t, maxBreakers))
            && (Committed(t, maxBreakers) ==> Stored(t.shards) >= maxBreakers - (SHARDS - 1))
  {
    var t := Exec(maxBreakers, schedule);
    ExecValid(maxBreakers, schedule);
    RefusedMeansCommitted(maxBreakers, schedule);
    PendingBounds(t.shards, ShardOf(key));
  }

  lemma ExecSnoc(maxBreakers: int, schedule: seq<Bytes>, key: Bytes)
    ensures Exec(maxBreakers, schedule + [key]) == Advance(Exec(maxBreakers, schedule), key, maxBreakers).0
  {
    assert (schedule + [key])[..|schedule|] == schedule;
  }

  lemma ThreeAdvances(t: Table, key: Bytes, maxBreakers: int)
    requires |t.shards| == SHARDS && t.shards[ShardOf(key)].holder.Free? && key !in t.shards[ShardOf(key)].breakers
    ensures var i := ShardOf(key);
            var holder := if Exceeds(t.total + 1, maxBreakers) then Refused(key) else Counted(key);
            Advance(Advance(Advance(t, key, maxBreakers).0, key, maxBreakers).0, key, maxBreakers).0 ==
            t.(total := t.total + 1, shards := t.shards[i := t.shards[i].(holder := holder)])
  {
  }

  /** Three steps bring a caller for a new key from outside to the point after its increment. */
  lemma ThreeSteps(maxBreakers: int, schedule: seq<Bytes>, key: Bytes)
    requires var shard := Exec(maxBreakers, schedule).shards[ShardOf(key)]; shard.holder.Free? && key !in shard.breakers
    ensures var t, i := Exec(maxBreakers, schedule), ShardOf(key);
            var holder := if Exceeds(t.total + 1, maxBreakers) then Refused(key) else Counted(key);
            Exec(maxBreakers, schedule + [key] + [key] + [key]) ==
            t.(total := t.total + 1, shards := t.shards[i := t.shards[i].(holder := holder)])
  {
    ThreeAdvances(Exec(maxBreakers, schedule), key, maxBreakers);
    ExecSnoc(maxBreakers, schedule, key);
    ExecSnoc(maxBreakers, schedule + [key], key);
    ExecSnoc(maxBreakers, schedule + [key] + [key], key);
  }

  /** With a cap of one, a caller can be refused while nothing is stored yet: another shard's caller holds the only
      place. */
  lemma RefusalBeforeFull(a: Bytes, b: Bytes)
    requires ShardOf(a) != ShardOf(b)
    ensures var t := Exec(1, [] + [a] + [a] + [a] + [b] + [b] + [b]);
            Stored(t.shards) == 0 && t.shards[ShardOf(b)].holder == Refused(b)
  {
    ThreeSteps(1, [], a);
    ThreeSteps(1, [] + [a] + [a] + [a], b);
    NothingCreatedNothingStored(Exec(1, [] + [a] + [a] + [a] + [b] + [b] + [b]).shards);
  }

  lemma {:induction false} NothingCreatedNothingStored(shards: seq<Shard>)
    requires forall i | 0 <= i < |shards| :: shards[i].breakers == map[]
    ensures Stored(shards) == 0
  {
    if shards != [] {
      NothingCreatedNothingStored(shards[..|shards| - 1]);
    }
  }

  // ----- the table as an object, one whole call at a time -----

  /** A call that nobody disturbs: an existing breaker is returned, a new one is stored unless that would exceed the
      cap. */
  function Called(t: Table, key: Bytes, maxBreakers: int): (Table, Outcome)
    requires |t.shards| == SHARDS
  {
    var i := ShardOf(key);
    var breakers := t.shards[i].breakers;
    if key in breakers then (t, Found(breakers[key]))
    else if Exceeds(t.total + 1, maxBreakers) then (t, Rejected)
    else
      (Table(t.shards[i := t.shards[i].(breakers := breakers[key := |t.created|])], t.total + 1, t.created + [key]),
       Found(|t.created|))
  }

  /** An undisturbed call is two steps if the key is there and four if it is not. */
  lemma CalledInSteps(t: Table, key: Bytes, maxBreakers: int)
    requires |t.shards| == SHARDS && t.shards[ShardOf(key)].holder.Free?
    ensures var t1 := Advance(t, key, maxBreakers).0;
            var t2 := Advance(t1, key, maxBreakers).0;
            if key in t.shards[ShardOf(key)].breakers then
              (t2, Advance(t1, key, maxBreakers).1) == Called(t, key, maxBreakers)
            else
              var t3 := Advance(t2, key, maxBreakers).0;
              Advance(t3, key, maxBreakers) == Called(t, key, maxBreakers)
  {
    var i := ShardOf(key);
    var shard := t.shards[i];
    var t1 := Advance(t, key, maxBreakers).0;
    var t2 := Advance(t1, key, maxBreakers).0;
    if key in shard.breakers {
      assert t2.shards == t.shards;
    } else {
      var t3 := Advance(t2, key, maxBreakers).0;
      var t4 := Advance(t3, key, maxBreakers).0;
      if Exceeds(t.total + 1, maxBreakers) {
        assert t4.shards == t.shards;
      } else {
        assert t4.shards == t.shards[i := shard.(breakers := shard.breakers[key := |t.created|])];
      }
    }
  }

  function Unlocked(shards: seq<map<Bytes, nat>>): (r: seq<Shard>)
    ensures |r| == |shards|
    ensures forall i | 0 <= i < |shards| :: r[i] == Shard(Free, shards[i])
  {
    seq(|shards|, i requires 0 <= i < |shards| => Shard(Free, shards[i]))
  }

  class BreakerTable {
    var shards: seq<map<Bytes, nat>>
    var total: int
    var created: seq<Bytes>

    predicate Valid()
      reads this
    {
      |shards| == SHARDS
    }

    function View(): (t: Table)
      reads this
      requires Valid()
      ensures |t.shards| == SHARDS
    {
      Table(Unlocked(shards), total, created)
    }

    constructor ()
      ensures Valid() && View() == Empty()
    {
      shards := seq(SHARDS, _ => map[]);
      total, created := 0, [];
      new;
      assert Unlocked(shards) == Empty().shards;
    }

    method Get(key: Bytes) returns (breaker: Option<nat>)
      requires Valid()
      ensures breaker == match Lookup(View(), key) case Found(b) => Some(b) case _ => None
    {
      var i := GetShard(key);
      return if key in shards[i] then Some(shards[i][key]) else None;
    }

    /** Returns nothing when the cap refuses the key. */
    method GetOrCreate(key: Bytes, maxBreakers: int) returns (breaker: Option<nat>)
      requires Valid()
      modifies this
      ensures Valid()
      ensures View() == Called(old(View()), key, maxBreakers).0
      ensures breaker == match Called(old(View()), key, maxBreakers).1 case Found(b) => Some(b) case _ => None
    {
      var existing := Get(key);
      if existing.Some? {
        return existing;
      }
      ghost var before := View();
      var i := GetShard(key);
      if maxBreakers > 0 {
        total := total + 1;
        if total > maxBreakers {
          total := total - 1;
          return None;
        }
      } else {
        total := total + 1;
      }
      var made: nat := |created|;
      var breakers: map<Bytes, nat> := shards[i][key := made];
      shards := shards[i := breakers];
      created := created + [key];
      assert Unlocked(shards) == before.shards[i := Shard(Free, breakers)];
      return Some(made);
    }
  }
}
