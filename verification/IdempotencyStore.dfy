/** The store itself: 64 shards, and the three operations on them when no other thread interferes. */
module IdempotencyStore {
  import opened Prelude
  import opened CapacityPlan
  import opened IdempotencySpec
  import opened IdempotencyEviction

  const SHARD_COUNT: nat := 64

  datatype Verdict = Reserved | Replay(response: Response) | FingerprintMismatch | Conflict

  /** The verdict on a slot that is present and not expired. */
  function VerdictOn(slot: Slot, fingerprint: seq<Byte>): Verdict {
    match slot
    case InFlight(_, _) => Conflict
    case Stored(r) => if r.fingerprint == fingerprint then Replay(r) else FingerprintMismatch
  }

  /** What a reservation publishes is within the cap and brings in no other key. */
  lemma ReclaimedFits(current: Shard, key: Key, now: nat, cap: nat, kept: Shard, marker: Slot)
    requires EvictedTo(current - {key}, now, key.tenant, cap, kept) && cap >= 1
    ensures |kept[key := marker]| <= cap
    ensures forall k :: k in kept[key := marker] && k != key ==> k in current
  {
    hide EvictedTo;
    EvictedIsSubShard(current - {key}, now, key.tenant, cap, kept);
    SizeAfterPut(kept, key, marker);
  }

  /** The shard a reservation publishes. */
  method NextShard(current: Shard, key: Key, now: nat, cap: nat, ttl: nat) returns (next: Shard)
    requires cap >= 1
    ensures Reclaimed(current, key, now, cap, ttl, next)
    ensures |next| <= cap && key in next && next[key] == InFlight(now, ttl)
    ensures forall k :: k in next && k != key ==> k in current
  {
    hide EvictedTo;
    var kept := EvictIfNeeded(current - {key}, now, key.tenant, cap);
    ReclaimedFits(current, key, now, cap, kept, InFlight(now, ttl));
    next := kept[key := InFlight(now, ttl)];
  }

  class Store {
    const shardOf: Key -> nat
    const cap: nat
    const ttl: nat
    var shards: seq<Shard>

    /** No shard exceeds the cap, and a key is only ever in the shard its hash names. */
    ghost predicate Valid()
      reads this
    {
      && cap >= 1 && |shards| == SHARD_COUNT
      && (forall k :: shardOf(k) < SHARD_COUNT)
      && (forall i :: 0 <= i < SHARD_COUNT ==> |shards[i]| <= cap)
      && (forall i, k :: 0 <= i < SHARD_COUNT && k in shards[i] ==> shardOf(k) == i)
    }

    constructor (shardOf: Key -> nat, ttlSeconds: nat, maxEntriesPerShard: nat)
      requires forall k :: shardOf(k) < SHARD_COUNT
      ensures Valid() && this.shardOf == shardOf
      ensures cap == (if maxEntriesPerShard == 0 then 1 else maxEntriesPerShard)
      ensures ttl == Min(ttlSeconds * 1000, U64_MAX)
      ensures forall i :: 0 <= i < SHARD_COUNT ==> shards[i] == map[]
    {
      this.shardOf := shardOf;
      cap := if maxEntriesPerShard == 0 then 1 else maxEntriesPerShard;
      ttl := Min(ttlSeconds * 1000, U64_MAX);
      shards := seq(SHARD_COUNT, _ => map[]);
    }

    ghost function ShardFor(key: Key): Shard
      reads this
      requires Valid()
    {
      shards[shardOf(key)]
    }

    /** A live slot decides the verdict and nothing changes. Otherwise the caller gets the reservation,
        and its shard is exactly what fair eviction leaves of the others plus the new marker. */
    method Reserve(key: Key, fingerprint: seq<Byte>, now: nat) returns (verdict: Verdict)
      requires Valid()
      modifies this
      ensures Valid()
      ensures old(Live(ShardFor(key), key, now)) ==>
                verdict == VerdictOn(old(ShardFor(key)[key]), fingerprint) && shards == old(shards)
      ensures !old(Live(ShardFor(key), key, now)) ==>
                && verdict == Reserved
                && shards == old(shards)[shardOf(key) := ShardFor(key)]
                && Reclaimed(old(ShardFor(key)), key, now, cap, ttl, ShardFor(key))
    {
      var idx := shardOf(key);
      var current := shards[idx];
      if key in current {
        var slot := current[key];
        if !slot.Expired(now) {
          match slot {
            case Stored(r) =>
              if r.fingerprint == fingerprint {
                return Replay(r);
              } else {
                return FingerprintMismatch;
              }
            case InFlight(_, _) =>
              return Conflict;
          }
        }
      }
      var next := NextShard(current, key, now, cap, ttl);
      shards := shards[idx := next];
      verdict := Reserved;
    }

    /** Promotes an in-flight slot and stamps it with the time of storing; anything else is refused
        and left alone, except that an oversize body gives the reservation up. */
    method StoreResponse(key: Key, response: Response, now: nat) returns (ok: bool)
      requires Valid()
      modifies this
      ensures Valid()
      ensures ok <==>
          |response.body| <= MAX_BODY_BYTES && key in old(ShardFor(key)) && old(ShardFor(key)[key].InFlight?)
      ensures ok <==>
          |response.body| <= 262_144 && key in old(ShardFor(key)) && old(ShardFor(key)[key].InFlight?)
      ensures ok ==> shards == old(shards)[shardOf(key) :=
                                 old(ShardFor(key))[key := Stored(response.(createdAt := now, ttl := ttl))]]
      ensures !ok && |response.body| <= MAX_BODY_BYTES ==> shards == old(shards)
      ensures |response.body| > MAX_BODY_BYTES ==> shards == old(Released(key))
    {
      if |response.body| > MAX_BODY_BYTES {
        Release(key);
        return false;
      }
      var idx := shardOf(key);
      var current := shards[idx];
      if key !in current || !current[key].InFlight? {
        return false;
      }
      var stored := Stored(response.(createdAt := now, ttl := ttl));
      SizeAfterPut(current, key, stored);
      shards := shards[idx := current[key := stored]];
      ok := true;
    }

    /** The shards without an in-flight slot for `key`; a stored response stays. */
    ghost function Released(key: Key): seq<Shard>
      reads this
      requires Valid()
    {
      var m := ShardFor(key);
      if key in m && m[key].InFlight? then shards[shardOf(key) := m - {key}] else shards
    }

    method Release(key: Key)
      requires Valid()
      modifies this
      ensures Valid() && shards == old(Released(key))
    {
      var idx := shardOf(key);
      var current := shards[idx];
      if key !in current || !current[key].InFlight? {
        return;
      }
      SizeAfterRemoval(current, key);
      shards := shards[idx := current - {key}];
    }
  }

  /** The contracts compose: a caller that reserves and stores, then retries within the lifetime, is
      answered with its own response, stamped when it was stored; a different body is refused. */
  method RetryIsReplayed(store: Store, key: Key, response: Response, reservedAt: nat, storedAt: nat, retriedAt: nat,
                         otherFingerprint: seq<Byte>) returns (retry: Verdict, other: Verdict)
    requires store.Valid() && !Live(store.ShardFor(key), key, reservedAt)
    requires |response.body| <= MAX_BODY_BYTES && otherFingerprint != response.fingerprint
    requires retriedAt < SatAdd(storedAt, store.ttl)
    modifies store
    ensures retry == Replay(response.(createdAt := storedAt, ttl := store.ttl)) && other == FingerprintMismatch
  {
    var reserved := store.Reserve(key, response.fingerprint, reservedAt);
    var stored := store.StoreResponse(key, response, storedAt);
    assert stored;
    retry := store.Reserve(key, response.fingerprint, retriedAt);
    other := store.Reserve(key, otherFingerprint, retriedAt);
  }
}
