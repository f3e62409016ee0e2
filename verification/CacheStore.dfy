/** The sharded store: 64 copy-on-write shard maps, a running byte counter per tenant, one writer. */
module CacheStore {
  import opened Prelude
  import opened CapacityPlan
  import opened CacheSpec
  import opened EvictionPlan

  /** Every key sits in the shard its hash names. */
  ghost predicate Placed(shards: seq<Contents>) {
    |shards| == SHARD_COUNT && forall i, k :: 0 <= i < |shards| && k in shards[i] ==> k.Shard() == i
  }

  /** m is what readers can find: `lookup` probes only the shard the key's hash names. */
  ghost predicate Represents(shards: seq<Contents>, m: Contents) {
    && Placed(shards)
    && (forall k :: k in m <==> k in shards[k.Shard()])
    && (forall k :: k in m ==> m[k] == shards[k.Shard()][k])
  }

  // --- The running counter against a recount ---------------------------------------------------

  /** Bytes of tenant t counted shard by shard over the first n shards, as a full recount would. */
  ghost function Recount(shards: seq<Contents>, t: TenantId, n: nat): nat
    requires n <= |shards|
  {
    if n == 0 then 0 else Recount(shards, t, n - 1) + Usage(shards[n - 1], t)
  }

  lemma {:induction false} RecountBelow(shards: seq<Contents>, m: Contents, t: TenantId, n: nat)
    requires Represents(shards, m) && n <= SHARD_COUNT
    ensures Recount(shards, t, n) == CostOf(m, Below(m, t, n))
  {
    if n == 0 {
      assert Below(m, t, 0) == {};
    } else {
      RecountBelow(shards, m, t, n - 1);
      var last := shards[n - 1];
      CostOfSplit(m, Below(m, t, n), Below(m, t, n - 1));
      assert Below(m, t, n) - Below(m, t, n - 1) == OfTenant(last, t);
      CostOfAgree(m, last, OfTenant(last, t));
    }
  }

  /** Counting shard by shard is counting the whole store. */
  lemma RecountIsUsage(shards: seq<Contents>, m: Contents, t: TenantId)
    requires Represents(shards, m)
    ensures Recount(shards, t, SHARD_COUNT) == Usage(m, t)
  {
    RecountBelow(shards, m, t, SHARD_COUNT);
    assert Below(m, t, SHARD_COUNT) == OfTenant(m, t);
  }

  // --- Shard stores ----------------------------------------------------------------------------

  /** Each tenant within its storage share. */
  ghost predicate WithinShares(plan: Plan, m: Contents) {
    |plan.storage| == |plan.tenantIds| && forall i :: 0 <= i < |plan.tenantIds| ==>
        Usage(m, plan.tenantIds[i]) <= plan.storage[i]
  }

  lemma SubMapWithinShares(plan: Plan, a: Contents, b: Contents)
    requires SubMap(a, b) && WithinShares(plan, b)
    ensures WithinShares(plan, a)
  {
    forall i | 0 <= i < |plan.tenantIds| ensures Usage(a, plan.tenantIds[i]) <= plan.storage[i] {
      UsageShrinks(a, b, plan.tenantIds[i]);
    }
  }

  lemma StorePut(shards: seq<Contents>, m: Contents, key: CacheKey, entry: Entry)
    requires Represents(shards, m)
    ensures Represents(shards[key.Shard() := shards[key.Shard()][key := entry]], m[key := entry])
  {
  }

  ghost function In(removed: set<CacheKey>, i: nat): set<CacheKey> {
    set k | k in removed && k.Shard() == i
  }

  lemma StoreRemove(shards: seq<Contents>, m: Contents, i: nat, removed: set<CacheKey>)
    requires Represents(shards, m) && i < SHARD_COUNT
    ensures Represents(shards[i := shards[i] - removed], m - In(removed, i))
  {
  }

  /** Removed keys already gone while the shards in `touched` are still to be stored. */
  ghost function Outside(removed: set<CacheKey>, idx: nat, touched: set<nat>): set<CacheKey> {
    set k | k in removed && k.Shard() != idx && k.Shard() !in touched
  }

  lemma OutsideNext(m: Contents, removed: set<CacheKey>, idx: nat, touched: set<nat>, i: nat)
    requires i in touched && i != idx
    ensures m - Outside(removed, idx, touched) - In(removed, i) == m - Outside(removed, idx, touched - {i})
  {
  }

  /** The last store of an eviction: the inserting shard, with the new entry and without the removed. */
  lemma StoreTarget(
    shards: seq<Contents>, m: Contents, before: Contents, key: CacheKey, entry: Entry, removed: set<CacheKey>)
    requires Represents(shards, m)
    requires m == before - Outside(removed, key.Shard(), {})
    ensures Represents(shards[key.Shard() := shards[key.Shard()][key := entry] - removed],
                       before[key := entry] - removed)
  {
    var i := key.Shard();
    var put := shards[i := shards[i][key := entry]];
    StorePut(shards, m, key, entry);
    StoreRemove(put, m[key := entry], i, removed);
    assert put[i := put[i] - removed] == shards[i := shards[i][key := entry] - removed];
    assert m[key := entry] - In(removed, i) == before[key := entry] - removed;
  }

  lemma UsageWithoutRemoved(m: Contents, removed: set<CacheKey>, t: TenantId)
    requires removed <= OfTenant(m, t)
    ensures Usage(m - removed, t) == CostOf(m, OfTenant(m, t) - removed)
    ensures forall u :: u != t ==> Usage(m - removed, u) == Usage(m, u)
  {
    assert OfTenant(m - removed, t) == OfTenant(m, t) - removed;
    CostOfAgree(m - removed, m, OfTenant(m - removed, t));
    forall u | u != t ensures Usage(m - removed, u) == Usage(m, u) {
      assert OfTenant(m - removed, u) == OfTenant(m, u);
      UsageSame(m - removed, m, u);
    }
  }

  lemma UsageOfOthers(m: Contents, key: CacheKey, entry: Entry)
    ensures forall u :: u != key.tenant ==> Usage(m[key := entry], u) == Usage(m, u)
  {
    forall u | u != key.tenant ensures Usage(m[key := entry], u) == Usage(m, u) {
      assert OfTenant(m[key := entry], u) == OfTenant(m, u);
      UsageSame(m[key := entry], m, u);
    }
  }

  /** Only tenant t's usage changed, and it fits. */
  lemma SharesAfter(plan: Plan, before: Contents, after: Contents, t: nat)
    requires plan.Valid() && WithinShares(plan, before) && t < |plan.tenantIds|
    requires forall u :: u != plan.tenantIds[t] ==> Usage(after, u) == Usage(before, u)
    requires Usage(after, plan.tenantIds[t]) <= plan.storage[t]
    ensures WithinShares(plan, after)
  {
  }

  /** A snapshot readers may see while `before` turns into `after`: it holds every entry that is in both,
      and nothing that is in neither. */
  ghost predicate Between(before: Contents, snapshot: Contents, after: Contents) {
    && (forall k :: k in before && k in after && before[k] == after[k] ==> k in snapshot && snapshot[k] == before[k])
    && (forall k :: k in snapshot ==>
          (k in before && snapshot[k] == before[k]) || (k in after && snapshot[k] == after[k]))
  }

  /** A removed key is not in the result, so no intermediate removal takes an entry that stays. */
  lemma PartialRemovalIsBetween(
    before: Contents, key: CacheKey, entry: Entry, removed: set<CacheKey>, gone: set<CacheKey>)
    requires gone <= removed
    ensures Between(before, before - gone, before[key := entry] - removed)
  {
  }

  lemma ResultIsBetween(before: Contents, after: Contents)
    ensures Between(before, after, after)
  {
  }

  class CacheCore {
    const plan: Plan
    var shards: seq<Contents>
    var tenantBytes: seq<nat>
    var oversizeDrops: nat
    var writeDrops: nat
    /** The stored entries as one map. */
    ghost var stored: Contents
    /** Every snapshot readers could ever have seen, one per shard store. */
    ghost var published: seq<Contents>

    ghost predicate Valid()
      reads this
    {
      && plan.Valid() && plan.budget <= U64_MAX
      && Represents(shards, stored)
      && (forall k :: k in stored ==> plan.Registered(k.tenant))
      && WithinShares(plan, stored)
      && Counted()
    }

    /** The counter the fast path trusts. */
    ghost predicate Counted()
      reads this
    {
      |tenantBytes| == |plan.tenantIds| && forall i :: 0 <= i < |tenantBytes| ==>
          tenantBytes[i] == Usage(stored, plan.tenantIds[i])
    }

    /** The tenant's entries and one more are in memory together, so their bytes fit `usize`. */
    ghost predicate FitsMemory(w: Write)
      reads this
    {
      Usage(stored, w.key.tenant) + w.entry.Cost() <= U64_MAX
    }

    constructor (plan: Plan)
      requires plan.Valid() && plan.budget <= U64_MAX
      ensures Valid() && stored == map[] && this.plan == plan && published == []
    {
      this.plan := plan;
      shards := seq(SHARD_COUNT, _ => map[]);
      tenantBytes := seq(|plan.tenantIds|, _ => 0);
      oversizeDrops, writeDrops := 0, 0;
      stored, published := map[], [];
      new;
      forall t ensures Usage(stored, t) == 0 { assert OfTenant(stored, t) == {}; }
    }

    /** `lookup`: one probe and a TTL check. */
    method Lookup(key: CacheKey, now: nat) returns (hit: Option<Entry>)
      requires Valid()
      ensures hit == Found(stored, key, now)
      ensures hit.Some? <==> key in stored && now < stored[key].insertedAt + stored[key].ttl && now < U64_MAX
    {
      FoundWhileYoung(stored, key, now);
      var shard := shards[key.Shard()];
      if key in shard && !shard[key].Expired(now) {
        hit := Some(shard[key]);
      } else {
        hit := None;
      }
    }

    /** One shard store of an eviction. */
    method StoreWithout(i: nat, removed: set<CacheKey>)
      requires Represents(shards, stored) && WithinShares(plan, stored) && i < SHARD_COUNT
      modifies `shards, `stored, `published
      ensures Represents(shards, stored) && WithinShares(plan, stored)
      ensures stored == old(stored) - In(removed, i) && published == old(published) + [stored]
    {
      StoreRemove(shards, stored, i, removed);
      shards := shards[i := shards[i] - removed];
      stored := stored - In(removed, i);
      SubMapWithinShares(plan, stored, old(stored));
      published := published + [stored];
    }

    /** The per-shard stores of one eviction: the other touched shards in any order, the inserting
        shard last. Readers may look in between: no snapshot is above any share, and none misses an
        entry that stays. */
    method PublishRemovals(key: CacheKey, entry: Entry, removed: set<CacheKey>)
      requires Represents(shards, stored) && WithinShares(plan, stored)
      requires WithinShares(plan, stored[key := entry] - removed)
      modifies `shards, `stored, `published
      ensures Represents(shards, stored) && stored == old(stored)[key := entry] - removed
      ensures old(published) < published && published[|published| - 1] == stored
      ensures forall n :: |old(published)| <= n < |published| ==>
                WithinShares(plan, published[n]) && Between(old(stored), published[n], stored)
    {
      hide Between, WithinShares;
      var idx := key.Shard();
      var touched := set k | k in removed && k.Shard() != idx :: k.Shard();
      ghost var before := stored;
      ghost var after := stored[key := entry] - removed;
      assert before - Outside(removed, idx, touched) == before;
      while touched != {}
        invariant idx !in touched && forall i :: i in touched ==> i < SHARD_COUNT
        invariant Represents(shards, stored) && WithinShares(plan, stored)
        invariant stored == before - Outside(removed, idx, touched)
        invariant old(published) <= published
        invariant forall n :: |old(published)| <= n < |published| ==>
                    WithinShares(plan, published[n]) && Between(before, published[n], after)
        decreases touched
      {
        var i :| i in touched;
        OutsideNext(before, removed, idx, touched, i);
        PartialRemovalIsBetween(before, key, entry, removed, Outside(removed, idx, touched - {i}));
        StoreWithout(i, removed);
        touched := touched - {i};
      }
      StoreTarget(shards, stored, before, key, entry, removed);
      ResultIsBetween(before, after);
      shards := shards[idx := shards[idx][key := entry] - removed];
      stored := before[key := entry] - removed;
      published := published + [stored];
    }

    /** One shard of the recount; the inserting shard is scanned with its new entry. */
    method CollectFrom(i: nat, key: CacheKey, entry: Entry, now: nat, cs: seq<Candidate>, total: nat)
        returns (cs': seq<Candidate>, total': nat)
      requires Represents(shards, stored) && Usage(stored[key := entry], key.tenant) <= U64_MAX && i < SHARD_COUNT
      requires Lists(cs, stored[key := entry], now, Below(stored[key := entry], key.tenant, i))
      requires total == CostOf(stored[key := entry], Below(stored[key := entry], key.tenant, i))
      ensures Lists(cs', stored[key := entry], now, Below(stored[key := entry], key.tenant, i + 1))
      ensures total' == CostOf(stored[key := entry], Below(stored[key := entry], key.tenant, i + 1))
    {
      hide Lists, CostOf, Usage;
      var shard := if i == key.Shard() then shards[i][key := entry] else shards[i];
      cs', total' := CollectShard(shard, key.tenant, now, cs, total, stored[key := entry], i);
    }

    /** The slow path's full recount over all shards, the inserting shard with its new entry. */
    method Collect(key: CacheKey, entry: Entry, now: nat) returns (cs: seq<Candidate>, total: nat)
      requires Represents(shards, stored) && Usage(stored[key := entry], key.tenant) <= U64_MAX
      ensures Lists(cs, stored[key := entry], now, OfTenant(stored[key := entry], key.tenant))
      ensures total == Usage(stored[key := entry], key.tenant)
    {
      ghost var full := stored[key := entry];
      cs, total := [], 0;
      assert Below(full, key.tenant, 0) == {};
      assert Lists(cs, full, now, Below(full, key.tenant, 0)) && total == CostOf(full, Below(full, key.tenant, 0));
      hide Lists, CostOf, Represents, Usage;
      for i := 0 to SHARD_COUNT
        invariant Lists(cs, full, now, Below(full, key.tenant, i)) && total == CostOf(full, Below(full, key.tenant, i))
      {
        cs, total := CollectFrom(i, key, entry, now, cs, total);
      }
      assert Below(full, key.tenant, SHARD_COUNT) == OfTenant(full, key.tenant);
    }

    /** `apply_insert`, the writer's only mutation of the store. */
    method ApplyInsert(key: CacheKey, entry: Entry, now: nat)
      requires Valid() && FitsMemory(Write(key, entry))
      modifies `shards, `tenantBytes, `oversizeDrops, `writeDrops, `stored, `published
      ensures Valid()
      ensures Applied(plan, old(stored), Write(key, entry), now, stored)
      ensures old(published) <= published
      ensures forall n :: |old(published)| <= n < |published| ==>
                WithinShares(plan, published[n]) && Between(old(stored), published[n], stored)
      ensures writeDrops == old(writeDrops) + if plan.Registered(key.tenant) then 0 else 1
      ensures oversizeDrops == old(oversizeDrops) +
                if plan.Registered(key.tenant) && OversizeForStore(plan, key.tenant, |entry.body|, |entry.model|) then
                    1 else 0
    {
      if !plan.Registered(key.tenant) {
        writeDrops := writeDrops + 1;
        return;
      }
      if |entry.body| > MAX_ENTRY_BYTES || entry.Cost() > plan.storage[plan.Index(key.tenant)] {
        oversizeDrops := oversizeDrops + 1;
        return;
      }
      Store(key, entry, plan.Index(key.tenant), now);
    }

    /** What the running counter expects the tenant to hold with the new entry in place. */
    method Projected(key: CacheKey, entry: Entry, t: nat) returns (projected: nat)
      requires Valid() && t < |plan.tenantIds| && plan.tenantIds[t] == key.tenant && FitsMemory(Write(key, entry))
      ensures projected == Usage(stored[key := entry], key.tenant) <= U64_MAX
    {
      var shard := shards[key.Shard()];
      var replaced := if key in shard then shard[key].Cost() else 0;
      ProjectionIsExact(key, entry, t);
      projected := SatAdd(SatSub(tenantBytes[t], replaced), entry.Cost());
    }

    /** The part of `apply_insert` past its guards: the running counter decides between one shard store
        and a recount with eviction. */
    method Store(key: CacheKey, entry: Entry, t: nat, now: nat)
      requires Valid() && t < |plan.tenantIds| && plan.tenantIds[t] == key.tenant && FitsMemory(Write(key, entry))
      requires entry.Cost() <= plan.storage[t]
      modifies `shards, `tenantBytes, `stored, `published
      ensures Valid() && EvictedTo(old(stored)[key := entry], key.tenant, now, plan.storage[t], stored)
      ensures old(published) < published
      ensures forall n :: |old(published)| <= n < |published| ==>
                WithinShares(plan, published[n]) && Between(old(stored), published[n], stored)
    {
      hide Between, WithinShares, EvictedTo, Counted;
      var projected := Projected(key, entry, t);
      if projected <= plan.storage[t] {
        StoreDirectly(key, entry, t, projected, now);
      } else {
        StoreEvicting(key, entry, t, now);
      }
    }

    /** The fast path: the projected counter fits, one shard store. */
    method StoreDirectly(key: CacheKey, entry: Entry, t: nat, projected: nat, ghost now: nat)
      requires Valid() && t < |plan.tenantIds| && plan.tenantIds[t] == key.tenant
      requires projected == Usage(stored[key := entry], key.tenant) <= plan.storage[t]
      modifies `shards, `tenantBytes, `stored, `published
      ensures Valid() && EvictedTo(old(stored)[key := entry], key.tenant, now, plan.storage[t], stored)
      ensures stored == old(stored)[key := entry] && published == old(published) + [stored]
      ensures WithinShares(plan, stored) && Between(old(stored), stored, stored)
    {
      StorePut(shards, stored, key, entry);
      UsageOfOthers(stored, key, entry);
      SharesAfter(plan, stored, stored[key := entry], t);
      ResultIsBetween(stored, stored[key := entry]);
      shards := shards[key.Shard() := shards[key.Shard()][key := entry]];
      stored := stored[key := entry];
      published := published + [stored];
      tenantBytes := tenantBytes[t := projected];
    }

    /** The slow path: recount, choose, publish. */
    method StoreEvicting(key: CacheKey, entry: Entry, t: nat, now: nat)
      requires Valid() && t < |plan.tenantIds| && plan.tenantIds[t] == key.tenant
      requires Usage(stored[key := entry], key.tenant) <= U64_MAX
      modifies `shards, `tenantBytes, `stored, `published
      ensures Valid() && EvictedTo(old(stored)[key := entry], key.tenant, now, plan.storage[t], stored)
      ensures old(published) < published
      ensures forall n :: |old(published)| <= n < |published| ==>
                WithinShares(plan, published[n]) && Between(old(stored), published[n], stored)
    {
      ghost var full := stored[key := entry];
      var cs, total := Collect(key, entry, now);
      var removed, rest := ChooseRemovals(cs, total, plan.storage[t], full, now, key.tenant);
      UsageOfOthers(stored, key, entry);
      UsageWithoutRemoved(full, removed, key.tenant);
      EvictionFits(full, key.tenant, now, plan.storage[t], full - removed);
      SharesAfter(plan, stored, full - removed, t);
      PublishRemovals(key, entry, removed);
      tenantBytes := tenantBytes[t := rest];
    }

    /** The running counter projects exactly what a recount with the new entry would find. */
    lemma ProjectionIsExact(key: CacheKey, entry: Entry, t: nat)
      requires Valid() && t < |plan.tenantIds| && plan.tenantIds[t] == key.tenant && FitsMemory(Write(key, entry))
      ensures var replaced := if key in stored then stored[key].Cost() else 0;
              SatAdd(SatSub(tenantBytes[t], replaced), entry.Cost())
                  == Usage(stored[key := entry], key.tenant) <= U64_MAX
    {
      UsageAfterUpsert(stored, key, entry);
      if key in stored {
        CostOfRemove(stored, OfTenant(stored, key.tenant), key);
      }
    }

    /** Whatever the budget, an entry that fits its share and the writer's retention cap fits memory. */
    lemma UsualEntriesFitMemory(key: CacheKey, entry: Entry, t: nat)
      requires Valid() && t < |plan.tenantIds| && plan.tenantIds[t] == key.tenant
      requires entry.Cost() <= Min(plan.storage[t], MAX_WRITE_RETENTION_BYTES)
      ensures FitsMemory(Write(key, entry))
    {
      ShareFits(plan, t);
      assert Usage(stored, plan.tenantIds[t]) <= plan.storage[t];
    }
  }

  lemma ShareFits(plan: Plan, t: nat)
    requires plan.Valid() && t < |plan.tenantIds|
    ensures t < |plan.storage| && plan.storage[t] <= plan.budget - WriterBudget(plan.budget)
  {
    PartitionIsExactAndEven(SatSub(plan.budget, WriterBudget(plan.budget)), |plan.tenantIds|);
    ElementAtMostSum(plan.storage, t);
  }

  lemma {:induction false} ElementAtMostSum(xs: seq<nat>, i: nat)
    requires i < |xs|
    ensures xs[i] <= Sum(xs)
  {
    if i < |xs| - 1 {
      ElementAtMostSum(xs[..|xs| - 1], i);
    }
  }
}
