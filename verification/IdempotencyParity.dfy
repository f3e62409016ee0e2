/** What fair eviction leaves in the shard a reservation publishes, with the reservation's own marker
    counted: how far a tenant that lost a slot can end below the others. */
module IdempotencyParity {
  import opened Prelude
  import opened CapacityPlan
  import opened IdempotencySpec

  /** An unexpired slot is only ever lost to fair eviction. */
  lemma LostToEviction(m: Shard, now: nat, inserting: TenantId, cap: nat, kept: Shard, a: TenantId)
    requires EvictedTo(m, now, inserting, cap, kept)
    ensures var live := Unexpired(m, now);
            Lost(live, kept, a) ==> FairTo(live, kept, inserting) && cap <= |live| && |kept| == cap - 1
  {
    hide FairTo;
  }

  lemma LostWithMarker(before: Shard, kept: Shard, key: Key, slot: Slot, a: TenantId)
    ensures Lost(before, kept[key := slot], a) ==> Lost(before, kept, a)
  {
  }

  lemma CountWithMarker(kept: Shard, key: Key, slot: Slot)
    requires key !in kept
    ensures Count(kept[key := slot], key.tenant) == Count(kept, key.tenant) + 1
    ensures forall b :: b != key.tenant ==> Count(kept[key := slot], b) == Count(kept, b)
  {
    assert KeysOf(kept[key := slot], key.tenant) == KeysOf(kept, key.tenant) + {key};
    forall b | b != key.tenant ensures Count(kept[key := slot], b) == Count(kept, b) {
      assert KeysOf(kept[key := slot], b) == KeysOf(kept, b);
    }
  }

  lemma FairIsSubShard(before: Shard, after: Shard, inserting: TenantId)
    ensures FairTo(before, after, inserting) ==> SubShard(after, before)
  {
  }

  lemma PublishedFairly(live: Shard, kept: Shard, key: Key, slot: Slot, a: TenantId, b: TenantId)
    requires FairTo(live, kept, key.tenant) && Lost(live, kept, a) && key !in kept
    ensures Count(kept[key := slot], b) <= Count(kept[key := slot], a) + 1
    ensures a == key.tenant ==> Count(kept[key := slot], b) <= Count(kept[key := slot], a)
  {
    hide Count, Lost;
    CountWithMarker(kept, key, slot);
    assert Count(kept, b) <= Count(kept, a) + 1;
  }

  /** In the shard a reservation publishes, its marker included: whoever lost an unexpired slot to it
      holds at least every other tenant's count minus one, and the inserter, if it lost one of its own,
      at least every other tenant's count. */
  lemma PublishedIsFair(before: Shard, key: Key, now: nat, cap: nat, ttl: nat, after: Shard)
    requires Reclaimed(before, key, now, cap, ttl, after) && cap >= 1
    ensures var live := Unexpired(before - {key}, now);
            && (forall a, b :: Lost(live, after, a) ==> Count(after, b) <= Count(after, a) + 1)
            && (Lost(live, after, key.tenant) ==> forall b :: Count(after, b) <= Count(after, key.tenant))
  {
    hide EvictedTo, Lost, Count, FairTo;
    var live := Unexpired(before - {key}, now);
    var kept :|
      EvictedTo(before - {key}, now, key.tenant, cap, kept) && after == kept[key := InFlight(now, ttl)];
    EvictedIsSubShard(before - {key}, now, key.tenant, cap, kept);
    forall a, b | Lost(live, after, a)
      ensures Count(after, b) <= Count(after, a) + 1 && (a == key.tenant ==> Count(after, b) <= Count(after, a))
    {
      LostWithMarker(live, kept, key, InFlight(now, ttl), a);
      LostToEviction(before - {key}, now, key.tenant, cap, kept, a);
      PublishedFairly(live, kept, key, InFlight(now, ttl), a, b);
    }
  }

  /** When another tenant's insert leaves a tenant below parity with it: exactly if the tenant held one
      slot more. It then loses one, the inserter gains one, and they have changed places. */
  lemma BelowParityExactly(before: Shard, key: Key, now: nat, cap: nat, ttl: nat, after: Shard)
    requires Reclaimed(before, key, now, cap, ttl, after) && |before| <= cap && cap >= 1
    ensures var live := Unexpired(before - {key}, now);
            forall a :: Lost(live, after, a) && a != key.tenant ==>
              && Count(after, a) + 1 == Count(live, a) && Count(after, key.tenant) == Count(live, key.tenant) + 1
              && (Count(after, a) < Count(after, key.tenant) <==> Count(live, a) == Count(live, key.tenant) + 1)
  {
    hide EvictedTo, Lost, Count, FairTo;
    var m, live := before - {key}, Unexpired(before - {key}, now);
    var kept :| EvictedTo(m, now, key.tenant, cap, kept) && after == kept[key := InFlight(now, ttl)];
    EvictedIsSubShard(m, now, key.tenant, cap, kept);
    CountWithMarker(kept, key, InFlight(now, ttl));
    SizeAfterRemoval(before, key);
    SizeOfPart(live, m);
    forall a | Lost(live, after, a) && a != key.tenant
      ensures Count(kept, a) + 1 == Count(live, a) && Count(kept, key.tenant) == Count(live, key.tenant)
      ensures Count(kept, key.tenant) <= Count(kept, a)
    {
      LostWithMarker(live, kept, key, InFlight(now, ttl), a);
      LostToEviction(m, now, key.tenant, cap, kept, a);
      FairIsSubShard(live, kept, key.tenant);
      OneIsEvicted(live, kept, a, key.tenant);
      LoserStaysAboveInserter(live, kept, a, key.tenant);
    }
  }

  lemma LoserStaysAboveInserter(before: Shard, after: Shard, a: TenantId, inserting: TenantId)
    requires FairTo(before, after, inserting) && Lost(before, after, a) && a != inserting
    ensures Count(after, inserting) <= Count(after, a)
  {
  }

  lemma SizeOfPart(a: Shard, b: Shard)
    requires SubShard(a, b)
    ensures |a| <= |b|
  {
    assert b.Keys == a.Keys + (b.Keys - a.Keys);
    assert |a.Keys| <= |b.Keys|;
  }

  lemma OneMissing(big: set<Key>, small: set<Key>, k: Key)
    requires small <= big && |small| + 1 == |big| && k in big && k !in small
    ensures big == small + {k}
  {
    var gone := big - small - {k};
    assert big == small + {k} + gone && |big| == |small + {k}| + |gone| && |small + {k}| == |small| + 1;
  }

  /** One slot fewer in all, and a tenant that lost one: nobody else did. */
  lemma OneIsEvicted(before: Shard, after: Shard, a: TenantId, b: TenantId)
    requires SubShard(after, before) && |after| + 1 == |before| && Lost(before, after, a) && a != b
    ensures Count(after, a) + 1 == Count(before, a) && Count(after, b) == Count(before, b)
  {
    var k :| k in before && k !in after && k.tenant == a;
    assert |before.Keys| == |before| && |after.Keys| == |after|;
    OneMissing(before.Keys, after.Keys, k);
    assert forall l :: l in before <==> l in after || l == k;
    assert KeysOf(before, a) == KeysOf(after, a) + {k};
    assert KeysOf(before, b) == KeysOf(after, b);
  }

  /** Tenant 0 with two slots and tenant 1 with one, in a full shard of three. */
  function Full(slot: Slot): Shard { map[Key(0, "a") := slot, Key(0, "b") := slot, Key(1, "c") := slot] }

  function FullLess(slot: Slot): Shard { map[Key(0, "b") := slot, Key(1, "c") := slot] }

  lemma FullCounts(slot: Slot, t: TenantId)
    ensures Count(Full(slot), t) == (if t == 0 then 2 else if t == 1 then 1 else 0)
    ensures Count(FullLess(slot), t) == (if t == 0 || t == 1 then 1 else 0)
    ensures Lost(Full(slot), FullLess(slot), t) ==> t == 0
  {
    var a, b, c := Key(0, "a"), Key(0, "b"), Key(1, "c");
    assert KeysOf(Full(slot), t) == if t == 0 then {a, b} else if t == 1 then {c} else {};
    assert KeysOf(FullLess(slot), t) == if t == 0 then {b} else if t == 1 then {c} else {};
    if Lost(Full(slot), FullLess(slot), t) {
      var k :| k in Full(slot) && k !in FullLess(slot) && k.tenant == t;
    }
  }

  lemma FullFairly(slot: Slot)
    ensures FairTo(Full(slot), FullLess(slot), 1)
  {
    hide Count, Lost;
    forall t ensures Count(FullLess(slot), t) <= 1 && (Lost(Full(slot), FullLess(slot), t) ==> t == 0) {
      FullCounts(slot, t);
    }
    FullCounts(slot, 0);
  }

  /** Tenant 1's next insert turns two against one around: tenant 0 ends below parity. */
  lemma ParityIsOvershot(ttl: nat, slot: Slot)
    requires !slot.Expired(0)
    ensures var after := FullLess(slot)[Key(1, "d") := InFlight(0, ttl)];
            && Reclaimed(Full(slot), Key(1, "d"), 0, 3, ttl, after)
            && Count(Full(slot), 0) == 2 && Count(Full(slot), 1) == 1
            && Count(after, 0) == 1 && Count(after, 1) == 2
  {
    hide Count, FairTo;
    var d := Key(1, "d");
    FullFairly(slot);
    FullCounts(slot, 0);
    FullCounts(slot, 1);
    CountWithMarker(FullLess(slot), d, InFlight(0, ttl));
    FullSizes(slot);
    assert Full(slot) - {d} == Full(slot) && Unexpired(Full(slot), 0) == Full(slot);
    assert EvictedTo(Full(slot) - {d}, 0, 1, 3, FullLess(slot));
  }

  lemma FullSizes(slot: Slot)
    ensures |Full(slot)| == 3 && |FullLess(slot)| == 2
  {
    assert Full(slot).Keys == {Key(0, "a"), Key(0, "b"), Key(1, "c")};
    assert FullLess(slot).Keys == {Key(0, "b"), Key(1, "c")};
  }
}
