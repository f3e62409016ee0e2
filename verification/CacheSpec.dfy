/** What one cache write does to the stored entries, stated on the key-to-entry map alone: which
    entries may go, in which order, and when. */
module CacheSpec {
  import opened Prelude
  import opened CapacityPlan

  const SHARD_COUNT: nat := 64

  /** A SHA-256 digest. */
  type Digest = d: seq<Byte> | |d| == 32 witness seq(32, _ => 0)

  /** Tenant and namespace are structural parts of the key. */
  datatype CacheKey = CacheKey(tenant: TenantId, namespace: string, hash: Digest) {
    /** The top six bits of the digest. */
    function Shard(): (i: nat)
      ensures i < SHARD_COUNT && 4 * i <= hash[0] < 4 * i + 4
    {
      hash[0] / 4
    }
  }

  datatype Entry = Entry(body: seq<Byte>, model: string, promptTokens: nat, completionTokens: nat, totalTokens: nat,
                         insertedAt: nat, ttl: nat) {
    function Cost(): nat { EntryCost(|body|, |model|) }

    predicate Expired(now: nat) { now >= SatAdd(insertedAt, ttl) }
  }

  type Contents = map<CacheKey, Entry>

  /** What `lookup` answers: the entry of the key, unless its lifetime is over. */
  function Found(m: Contents, key: CacheKey, now: nat): Option<Entry> {
    if key in m && !m[key].Expired(now) then Some(m[key]) else None
  }

  /** The entry's age has reached its lifetime, or the clock the top of u64. */
  predicate Aged(e: Entry, now: nat) { e.insertedAt + e.ttl <= now || U64_MAX <= now }

  lemma ExpiredIsAged(e: Entry, now: nat)
    ensures e.Expired(now) <==> Aged(e, now)
  {
  }

  /** A key is found exactly while the age of its entry is below the lifetime it was stored with. */
  lemma FoundWhileYoung(m: Contents, key: CacheKey, now: nat)
    ensures Found(m, key, now).Some? <==>
              key in m && now < m[key].insertedAt + m[key].ttl && now < U64_MAX
    ensures Found(m, key, now).Some? ==> Found(m, key, now).value == m[key]
  {
    if key in m { ExpiredIsAged(m[key], now); }
  }

  // --- Cost of a set of entries ----------------------------------------------------------------

  ghost function CostOf(m: Contents, ks: set<CacheKey>): nat
    requires ks <= m.Keys
  {
    if ks == {} then 0 else
      var k :| k in ks;
      m[k].Cost() + CostOf(m, ks - {k})
  }

  lemma {:induction false} CostOfRemove(m: Contents, ks: set<CacheKey>, k: CacheKey)
    requires ks <= m.Keys && k in ks
    ensures CostOf(m, ks) == m[k].Cost() + CostOf(m, ks - {k})
    decreases ks
  {
    var first :| first in ks && CostOf(m, ks) == m[first].Cost() + CostOf(m, ks - {first});
    if first != k {
      CostOfRemove(m, ks - {first}, k);
      CostOfRemove(m, ks - {k}, first);
      assert ks - {first} - {k} == ks - {k} - {first};
    }
  }

  lemma CostOfAdd(m: Contents, ks: set<CacheKey>, k: CacheKey)
    requires ks <= m.Keys && k in m && k !in ks
    ensures CostOf(m, ks + {k}) == CostOf(m, ks) + m[k].Cost()
  {
    CostOfRemove(m, ks + {k}, k);
    assert ks + {k} - {k} == ks;
  }

  lemma {:induction false} CostOfAgree(a: Contents, b: Contents, ks: set<CacheKey>)
    requires ks <= a.Keys && ks <= b.Keys && forall k :: k in ks ==> a[k].Cost() == b[k].Cost()
    ensures CostOf(a, ks) == CostOf(b, ks)
    decreases ks
  {
    if ks != {} {
      var k :| k in ks;
      CostOfRemove(a, ks, k);
      CostOfRemove(b, ks, k);
      CostOfAgree(a, b, ks - {k});
    }
  }

  lemma {:induction false} CostOfSplit(m: Contents, ks: set<CacheKey>, part: set<CacheKey>)
    requires part <= ks <= m.Keys
    ensures CostOf(m, ks) == CostOf(m, part) + CostOf(m, ks - part)
    decreases part
  {
    if part == {} {
      assert ks - part == ks;
    } else {
      var k :| k in part;
      CostOfRemove(m, ks, k);
      CostOfRemove(m, part, k);
      CostOfSplit(m, ks - {k}, part - {k});
      assert ks - {k} - (part - {k}) == ks - part;
    }
  }

  ghost function OfTenant(m: Contents, t: TenantId): set<CacheKey> {
    set k | k in m && k.tenant == t
  }

  /** Bytes a tenant's stored entries occupy. */
  ghost function Usage(m: Contents, t: TenantId): nat {
    CostOf(m, OfTenant(m, t))
  }

  ghost predicate SubMap(a: Contents, b: Contents) {
    forall k :: k in a ==> k in b && a[k] == b[k]
  }

  lemma UsageShrinks(a: Contents, b: Contents, t: TenantId)
    requires SubMap(a, b)
    ensures Usage(a, t) <= Usage(b, t)
  {
    CostOfAgree(a, b, OfTenant(a, t));
    CostOfSplit(b, OfTenant(b, t), OfTenant(a, t));
  }

  lemma UsageSame(a: Contents, b: Contents, t: TenantId)
    requires OfTenant(a, t) == OfTenant(b, t) && forall k :: k in OfTenant(a, t) ==> a[k] == b[k]
    ensures Usage(a, t) == Usage(b, t)
  {
    CostOfAgree(a, b, OfTenant(a, t));
  }

  /** The running counter's arithmetic: drop the replaced entry's cost, add the new one's. */
  lemma UsageAfterUpsert(m: Contents, key: CacheKey, entry: Entry)
    ensures Usage(m[key := entry], key.tenant)
         == Usage(m, key.tenant) - (if key in m then m[key].Cost() else 0) + entry.Cost()
  {
    var m', t := m[key := entry], key.tenant;
    var others := OfTenant(m, t) - {key};
    CostOfAgree(m, m', others);
    assert OfTenant(m', t) == others + {key};
    CostOfAdd(m', others, key);
    if key in m {
      CostOfRemove(m, OfTenant(m, t), key);
    } else {
      assert others == OfTenant(m, t);
    }
  }

  // --- Eviction --------------------------------------------------------------------------------

  ghost function ExpiredOf(m: Contents, t: TenantId, now: nat): set<CacheKey> {
    set k | k in m && k.tenant == t && m[k].Expired(now)
  }

  ghost function LiveOf(m: Contents, t: TenantId, now: nat): set<CacheKey> {
    set k | k in m && k.tenant == t && !m[k].Expired(now)
  }

  /** `kept` of the live entries are what remains after the shortest oldest-first prefix went. */
  ghost predicate ShortestOldestPrefixGone(m: Contents, live: set<CacheKey>, kept: set<CacheKey>, budget: nat)
    requires live <= m.Keys
  {
    && kept <= live
    && CostOf(m, kept) <= budget
    && (forall f, g :: f in live && f !in kept && g in kept ==> m[f].insertedAt <= m[g].insertedAt)
    && exists last :: last in live && last !in kept && CostOf(m, kept + {last}) > budget
         && forall f :: f in live && f !in kept ==> m[f].insertedAt <= m[last].insertedAt
  }

  /** `after` is what eviction for tenant t leaves of `full`, the map with the new entry already in it. */
  ghost predicate EvictedTo(full: Contents, t: TenantId, now: nat, budget: nat, after: Contents) {
    && SubMap(after, full)
    && (forall k :: k in full && k.tenant != t ==> k in after)
    && (if Usage(full, t) <= budget then
          OfTenant(after, t) == OfTenant(full, t)
        else if CostOf(full, LiveOf(full, t, now)) <= budget then
          OfTenant(after, t) == LiveOf(full, t, now)
        else
          ShortestOldestPrefixGone(full, LiveOf(full, t, now), OfTenant(after, t), budget))
  }

  /** Eviction always gets the tenant back under its share. */
  lemma EvictionFits(full: Contents, t: TenantId, now: nat, budget: nat, after: Contents)
    requires EvictedTo(full, t, now, budget, after)
    ensures Usage(after, t) <= budget
  {
    CostOfAgree(after, full, OfTenant(after, t));
  }

  /** Nobody else's entries move: every lookup of another tenant answers as before. */
  lemma EvictionIsIsolated(
    before: Contents, key: CacheKey, entry: Entry, now: nat, budget: nat, after: Contents, other: CacheKey)
    requires EvictedTo(before[key := entry], key.tenant, now, budget, after) && other.tenant != key.tenant
    ensures other in after <==> other in before
    ensures other in after ==> after[other] == before[other]
    ensures forall u :: u != key.tenant ==> Usage(after, u) == Usage(before, u)
  {
    forall u | u != key.tenant ensures Usage(after, u) == Usage(before, u) {
      assert OfTenant(after, u) == OfTenant(before, u);
      UsageSame(after, before, u);
    }
  }

  /** An unexpired insert that fits its share and is strictly newer than the tenant's other entries
      is there afterwards. */
  lemma NewestInsertSurvives(before: Contents, key: CacheKey, entry: Entry, now: nat, budget: nat, after: Contents)
    requires EvictedTo(before[key := entry], key.tenant, now, budget, after)
    requires !entry.Expired(now) && entry.Cost() <= budget
    requires forall k :: k in before && k != key && k.tenant == key.tenant ==> before[k].insertedAt < entry.insertedAt
    ensures key in after && after[key] == entry
  {
    var full, t := before[key := entry], key.tenant;
    var live, kept := LiveOf(full, t, now), OfTenant(after, t);
    assert key in live && key in OfTenant(full, t);
    if Usage(full, t) > budget && CostOf(full, live) > budget {
      var last := LastGone(full, live, kept, budget);
      assert key !in kept ==> last == key;
      assert key !in kept ==> kept == {};
      CostOfAdd(full, {}, key);
      assert {} + {key} == {key};
      assert key !in kept ==> kept + {last} == {key};
    }
  }

  /** The tenant's entries whose age is below their lifetime. */
  ghost function Young(m: Contents, t: TenantId, now: nat): set<CacheKey> {
    set k | k in m && k.tenant == t && now < m[k].insertedAt + m[k].ttl && now < U64_MAX
  }

  lemma LiveIsYoung(m: Contents, t: TenantId, now: nat)
    ensures LiveOf(m, t, now) == Young(m, t, now)
  {
    forall k | k in m ensures m[k].Expired(now) <==> Aged(m[k], now) {
      ExpiredIsAged(m[k], now);
    }
  }

  /** Expiry decides first. A tenant over its share keeps no entry whose age has reached its lifetime;
      and one that is younger goes only if the younger ones alone are over the share. */
  lemma AgedGoFirst(full: Contents, t: TenantId, now: nat, budget: nat, after: Contents)
    requires EvictedTo(full, t, now, budget, after)
    ensures Usage(full, t) > budget ==> forall k :: k in after && k.tenant == t ==> !Aged(full[k], now)
    ensures (exists k :: k in Young(full, t, now) && k !in after) ==> CostOf(full, Young(full, t, now)) > budget
  {
    hide CostOf, Usage;
    LiveIsYoung(full, t, now);
    if Usage(full, t) > budget {
      forall k | k in after && k.tenant == t ensures !Aged(full[k], now) {
        assert k in OfTenant(after, t);
        assert k in LiveOf(full, t, now);
      }
    }
    forall k | k in Young(full, t, now) && k !in after ensures CostOf(full, Young(full, t, now)) > budget {
      assert k in OfTenant(full, t) && k !in OfTenant(after, t);
    }
  }

  lemma LastGone(m: Contents, live: set<CacheKey>, kept: set<CacheKey>, budget: nat) returns (last: CacheKey)
    requires live <= m.Keys && ShortestOldestPrefixGone(m, live, kept, budget)
    ensures last in live && last !in kept && CostOf(m, kept + {last}) > budget
    ensures forall f :: f in live && f !in kept ==> m[f].insertedAt <= m[last].insertedAt
  {
    last :| last in live && last !in kept && CostOf(m, kept + {last}) > budget
         && forall f :: f in live && f !in kept ==> m[f].insertedAt <= m[last].insertedAt;
  }

  /** Whatever order the maps enumerate their entries in, the outcome is the same as soon as no two
      unexpired entries of the tenant are equally old. */
  lemma EvictionIsDeterministic(full: Contents, t: TenantId, now: nat, budget: nat, a: Contents, b: Contents)
    requires EvictedTo(full, t, now, budget, a) && EvictedTo(full, t, now, budget, b)
    requires forall k, l :: k in LiveOf(full, t, now) && l in LiveOf(full, t, now) && k != l ==>
               full[k].insertedAt != full[l].insertedAt
    ensures a == b
  {
    var live := LiveOf(full, t, now);
    if Usage(full, t) > budget && CostOf(full, live) > budget {
      PrefixNotLonger(full, live, OfTenant(a, t), OfTenant(b, t), budget);
      PrefixNotLonger(full, live, OfTenant(b, t), OfTenant(a, t), budget);
    }
    assert OfTenant(a, t) == OfTenant(b, t);
    forall k ensures k in a <==> k in b {
      assert k in a && k.tenant == t <==> k in OfTenant(a, t);
      assert k in b && k.tenant == t <==> k in OfTenant(b, t);
    }
  }

  lemma PrefixNotLonger(m: Contents, live: set<CacheKey>, kept: set<CacheKey>, kept': set<CacheKey>, budget: nat)
    requires live <= m.Keys
    requires ShortestOldestPrefixGone(m, live, kept, budget) && ShortestOldestPrefixGone(m, live, kept', budget)
    requires forall k, l :: k in live && l in live && k != l ==> m[k].insertedAt != m[l].insertedAt
    ensures kept' <= kept
  {
    var last := LastGone(m, live, kept, budget);
    if kept + {last} <= kept' {
      CostOfSplit(m, kept', kept + {last});
      assert false;
    }
    var y :| y in kept + {last} && y !in kept';
    forall x | x in kept' ensures x in kept {
      assert m[y].insertedAt <= m[x].insertedAt;
    }
  }

  // --- Provenance ------------------------------------------------------------------------------

  datatype Write = Write(key: CacheKey, entry: Entry)

  /** The effect of one `apply_insert`: dropped, or stored with eviction for the writing tenant. */
  ghost predicate Applied(plan: Plan, before: Contents, w: Write, now: nat, after: Contents)
    requires plan.Valid()
  {
    if !plan.Registered(w.key.tenant) || OversizeForStore(plan, w.key.tenant, |w.entry.body|, |w.entry.model|) then
      after == before
    else
      EvictedTo(before[w.key := w.entry], w.key.tenant, now, plan.storage[plan.Index(w.key.tenant)], after)
  }

  /** `states` are the contents after each of the writes, starting empty. */
  ghost predicate WriteRun(plan: Plan, writes: seq<Write>, times: seq<nat>, states: seq<Contents>)
    requires plan.Valid()
  {
    && |times| == |writes| && |states| == |writes| + 1 && states[0] == map[]
    && forall k :: 0 <= k < |writes| ==> Applied(plan, states[k], writes[k], times[k], states[k + 1])
  }

  /** The store never invents an entry: what a key finds was written under exactly that key. */
  lemma {:induction false} StoredEntryWasWritten(
    plan: Plan, writes: seq<Write>, times: seq<nat>, states: seq<Contents>, k: nat, key: CacheKey)
      returns (j: nat)
    requires plan.Valid() && WriteRun(plan, writes, times, states) && k < |states| && key in states[k]
    ensures j < k && writes[j] == Write(key, states[k][key])
  {
    assert Applied(plan, states[k - 1], writes[k - 1], times[k - 1], states[k]);
    if writes[k - 1] == Write(key, states[k][key]) {
      j := k - 1;
    } else {
      j := StoredEntryWasWritten(plan, writes, times, states, k - 1, key);
    }
  }
}
