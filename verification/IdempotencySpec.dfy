/** One shard of the idempotency store, and what fair eviction leaves of it. */
module IdempotencySpec {
  import opened Prelude
  import opened CapacityPlan

  const MAX_BODY_BYTES: nat := 256 * 1024

  datatype Key = Key(tenant: TenantId, key: string)

  /** A completed 2xx response; `createdAt` and `ttl` in milliseconds. */
  datatype Response = Response(status: nat, contentType: string, body: seq<Byte>, fingerprint: seq<Byte>,
                               provider: Option<string>, requestId: Option<string>, createdAt: nat, ttl: nat)

  datatype Slot = InFlight(createdAt: nat, ttl: nat) | Stored(response: Response) {
    function Created(): nat {
      match this
      case InFlight(createdAt, _) => createdAt
      case Stored(r) => r.createdAt
    }

    function Lifetime(): nat {
      match this
      case InFlight(_, ttl) => ttl
      case Stored(r) => r.ttl
    }

    predicate Expired(now: nat) { now >= SatAdd(Created(), Lifetime()) }
  }

  type Shard = map<Key, Slot>

  ghost predicate SubShard(a: Shard, b: Shard) {
    forall k :: k in a ==> k in b && a[k] == b[k]
  }

  ghost function KeysOf(m: Shard, t: TenantId): set<Key> { set k | k in m && k.tenant == t }

  /** Slots a tenant holds. */
  ghost function Count(m: Shard, t: TenantId): nat { |KeysOf(m, t)| }

  ghost function Tenants(m: Shard): set<TenantId> { set k | k in m :: k.tenant }

  function Unexpired(m: Shard, now: nat): Shard { map k | k in m && !m[k].Expired(now) :: m[k] }

  ghost predicate Lost(before: Shard, after: Shard, t: TenantId) {
    exists k :: k in before && k !in after && k.tenant == t
  }

  /** Max-min fairness of what is left of `before` when `inserting` needed room: whoever lost a slot
      still holds at least every other tenant's count minus one, and at least the inserter's; and each
      tenant lost its oldest slots. */
  ghost predicate FairTo(before: Shard, after: Shard, inserting: TenantId) {
    && SubShard(after, before)
    && (forall a, b :: Lost(before, after, a) ==> Count(after, b) <= Count(after, a) + 1)
    && (forall a :: Lost(before, after, a) && a != inserting ==> Count(after, inserting) <= Count(after, a))
    && (forall k, l :: k in before && k !in after && l in after && k.tenant == l.tenant ==>
          before[k].Created() <= before[l].Created())
  }

  /** `evict_if_needed`: nothing below the cap, else the TTL sweep, else the sweep and fair eviction
      down to one slot below the cap. */
  ghost predicate EvictedTo(m: Shard, now: nat, inserting: TenantId, cap: nat, after: Shard) {
    var live := Unexpired(m, now);
    if |m| < cap then after == m
    else if |live| < cap then after == live
    else |after| == cap - 1 && FairTo(live, after, inserting)
  }

  /** A slot that still answers for its key. */
  ghost predicate Live(m: Shard, key: Key, now: nat) { key in m && !m[key].Expired(now) }

  /** A reservation's own shard: what fair eviction leaves of the other slots, and the new marker. */
  ghost predicate Reclaimed(before: Shard, key: Key, now: nat, cap: nat, ttl: nat, after: Shard) {
    exists kept :: EvictedTo(before - {key}, now, key.tenant, cap, kept) && after == kept[key := InFlight(now, ttl)]
  }

  // --- Lifetimes -------------------------------------------------------------------------------

  /** The slot's age has reached its lifetime, or the clock the top of u64. */
  predicate Dead(slot: Slot, now: nat) {
    U64_MAX <= now ||
    match slot
    case InFlight(createdAt, ttl) => createdAt + ttl <= now
    case Stored(r) => r.createdAt + r.ttl <= now
  }

  lemma ExpiredIsDead(slot: Slot, now: nat)
    ensures slot.Expired(now) <==> Dead(slot, now)
  {
  }

  ghost function Alive(m: Shard, now: nat): set<Key> { set k | k in m && !Dead(m[k], now) }

  lemma UnexpiredIsAlive(m: Shard, now: nat)
    ensures Unexpired(m, now).Keys == Alive(m, now)
  {
    forall k | k in m ensures m[k].Expired(now) <==> Dead(m[k], now) {
      ExpiredIsDead(m[k], now);
    }
  }

  /** The TTL sweep comes first: at the cap no dead slot is left, and a living one goes only if the living
      ones alone are at the cap. */
  lemma DeadGoFirst(m: Shard, now: nat, inserting: TenantId, cap: nat, after: Shard)
    requires EvictedTo(m, now, inserting, cap, after)
    ensures |m| >= cap ==> forall k :: k in after ==> k in m && after[k] == m[k] && !Dead(after[k], now)
    ensures (exists k :: k in Alive(m, now) && k !in after) ==> |Alive(m, now)| >= cap
    ensures |m| < cap ==> after == m
  {
    UnexpiredIsAlive(m, now);
    assert |Unexpired(m, now).Keys| == |Unexpired(m, now)|;
    if |m| >= cap {
      forall k | k in after ensures k in m && after[k] == m[k] && !Dead(after[k], now) {
        assert k in Unexpired(m, now).Keys;
      }
    }
  }

  /** A reservation takes a living slot of somebody else only if the living ones alone fill the shard, and
      then it leaves no dead one. */
  lemma ReclaimTakesDeadFirst(before: Shard, key: Key, now: nat, cap: nat, ttl: nat, after: Shard, k: Key)
    requires Reclaimed(before, key, now, cap, ttl, after)
    requires k in before && k != key && k !in after && !Dead(before[k], now)
    ensures |Alive(before - {key}, now)| >= cap
    ensures forall d :: d in after && d != key ==> !Dead(after[d], now)
  {
    hide EvictedTo;
    var m := before - {key};
    var kept :| EvictedTo(m, now, key.tenant, cap, kept) && after == kept[key := InFlight(now, ttl)];
    DeadGoFirst(m, now, key.tenant, cap, kept);
    assert k in Alive(m, now) && k !in kept;
  }

  // --- Sizes -----------------------------------------------------------------------------------

  lemma EvictedIsSubShard(m: Shard, now: nat, inserting: TenantId, cap: nat, after: Shard)
    requires EvictedTo(m, now, inserting, cap, after) && cap >= 1
    ensures SubShard(after, m) && |after| <= cap - 1
  {
  }

  lemma SizeAfterPut(m: Shard, k: Key, slot: Slot)
    ensures |m[k := slot]| <= |m| + 1
    ensures k in m ==> |m[k := slot]| == |m|
  {
    assert m[k := slot].Keys == m.Keys + {k};
    if k in m { assert m.Keys + {k} == m.Keys; }
  }

  lemma SizeAfterRemoval(m: Shard, k: Key)
    ensures |m - {k}| <= |m|
  {
    assert (m - {k}).Keys == m.Keys - {k};
    assert |m.Keys - {k}| <= |m.Keys|;
  }

  // --- Counting --------------------------------------------------------------------------------

  lemma SplitTenant(m: Shard, t: TenantId)
    ensures |m| == |m - KeysOf(m, t)| + Count(m, t)
    ensures Tenants(m - KeysOf(m, t)) == Tenants(m) - {t}
  {
    var rest := m - KeysOf(m, t);
    assert m.Keys == rest.Keys + KeysOf(m, t);
    assert |m.Keys| == |rest.Keys| + |KeysOf(m, t)|;
    forall u | u in Tenants(m) - {t} ensures u in Tenants(rest) {
      var k :| k in m && k.tenant == u;
      assert k in rest;
    }
  }

  lemma CountShrinks(after: Shard, before: Shard, t: TenantId)
    requires SubShard(after, before)
    ensures Count(after, t) <= Count(before, t)
    ensures Lost(before, after, t) ==> Count(after, t) < Count(before, t)
  {
    assert KeysOf(after, t) <= KeysOf(before, t);
    assert KeysOf(before, t) == KeysOf(after, t) + (KeysOf(before, t) - KeysOf(after, t));
    if Lost(before, after, t) {
      var k :| k in before && k !in after && k.tenant == t;
      assert k in KeysOf(before, t) - KeysOf(after, t);
    }
  }

  lemma Distribute(n: nat, q: nat)
    requires n >= 1
    ensures n * q == (n - 1) * q + q
  {
  }

  lemma CountsOfRest(m: Shard, t: TenantId, u: TenantId)
    requires u != t
    ensures Count(m - KeysOf(m, t), u) == Count(m, u)
  {
    assert KeysOf(m - KeysOf(m, t), u) == KeysOf(m, u);
  }

  lemma {:induction false} SizeAtMost(m: Shard, ts: set<TenantId>, q: nat)
    requires Tenants(m) <= ts && forall t :: t in ts ==> Count(m, t) <= q
    ensures |m| <= |ts| * q
    decreases ts
  {
    if m.Keys == {} {
      NoNegativeProduct(|ts|, q);
      assert |m.Keys| == 0;
    } else {
      var k :| k in m.Keys;
      var t, rest := k.tenant, m - KeysOf(m, k.tenant);
      assert t in Tenants(m);
      SplitTenant(m, t);
      forall u | u in ts - {t} ensures Count(rest, u) <= q {
        CountsOfRest(m, t, u);
      }
      SizeAtMost(rest, ts - {t}, q);
      assert |ts - {t}| == |ts| - 1;
      Distribute(|ts|, q);
    }
  }

  lemma NoNegativeProduct(n: nat, q: nat)
    ensures n * q >= 0
  {
  }

  /** All but two tenants at most q slots each, those two at most r each. */
  lemma SizeWithTwoSmaller(m: Shard, ts: set<TenantId>, q: nat, a: TenantId, b: TenantId, r: nat)
    requires Tenants(m) <= ts && a in ts && b in ts && a != b
    requires (forall t :: t in ts ==> Count(m, t) <= q) && Count(m, a) <= r && Count(m, b) <= r
    ensures |ts| >= 2 && |m| <= (|ts| - 2) * q + 2 * r
  {
    hide Count, Tenants;
    var one := m - KeysOf(m, a);
    var two := one - KeysOf(one, b);
    SplitTenant(m, a);
    SplitTenant(one, b);
    CountsOfRest(m, a, b);
    forall u | u in ts - {a} - {b} ensures Count(two, u) <= q {
      CountsOfRest(m, a, u);
      CountsOfRest(one, b, u);
    }
    SizeAtMost(two, ts - {a} - {b}, q);
    assert |ts - {a} - {b}| == |ts| - 2;
  }

  lemma SharesSum(n: nat, cap: nat)
    requires n >= 2
    ensures (n - 2) * (cap / n) + 2 * (cap / n) <= cap
  {
    Distribute(n, cap / n);
    Distribute(n - 1, cap / n);
    assert n * (cap / n) <= cap;
  }

  lemma LosersStayHigh(before: Shard, after: Shard, inserting: TenantId, cap: nat, t: TenantId, ts: set<TenantId>)
    requires FairTo(before, after, inserting) && Lost(before, after, t)
    requires Tenants(before) + {inserting} <= ts && t != inserting && Count(before, t) <= cap / |ts|
    ensures cap / |ts| >= 1 && Tenants(after) <= ts && t in ts
    ensures forall u :: u in ts ==> Count(after, u) <= cap / |ts|
    ensures Count(after, t) <= cap / |ts| - 1 && Count(after, inserting) <= cap / |ts| - 1
  {
    CountShrinks(after, before, t);
    forall u | u in Tenants(after) ensures u in ts {
      var k :| k in after && k.tenant == u;
      assert k.tenant in Tenants(before);
    }
    assert t in Tenants(before);
  }

  /** Nobody else's insert takes a slot from a tenant holding at most its equal share floor(cap / K) of
      a shard that K tenants use, the inserter included: losing one there would leave fewer than
      cap - 1 slots in all. */
  lemma FloorIsSafe(before: Shard, after: Shard, inserting: TenantId, cap: nat, t: TenantId, ts: set<TenantId>)
    requires FairTo(before, after, inserting) && |after| == cap - 1
    requires Tenants(before) + {inserting} <= ts && t != inserting && Count(before, t) <= cap / |ts|
    ensures !Lost(before, after, t)
  {
    if Lost(before, after, t) {
      LosersStayHigh(before, after, inserting, cap, t, ts);
      SizeWithTwoSmaller(after, ts, cap / |ts|, t, inserting, cap / |ts| - 1);
      SharesSum(|ts|, cap);
      assert false;
    }
  }

  /** Two bounds in one: everybody at most r, one tenant at most r - 1. */
  lemma SizeWithOneSmaller(m: Shard, ts: set<TenantId>, a: TenantId, r: nat)
    requires Tenants(m) <= ts && a in ts && r >= 1
    requires (forall t :: t in ts ==> Count(m, t) <= r) && Count(m, a) <= r - 1
    ensures |m| <= |ts| * r - 1
  {
    var rest := m - KeysOf(m, a);
    SplitTenant(m, a);
    forall u | u in ts - {a} ensures Count(rest, u) <= r {
      CountsOfRest(m, a, u);
    }
    SizeAtMost(rest, ts - {a}, r);
    assert |ts - {a}| == |ts| - 1;
    Distribute(|ts|, r);
  }

  lemma BelowTheFloor(n: nat, cap: nat)
    requires n >= 1 && cap / n >= 2
    ensures n * (cap / n - 1) <= cap - 1
  {
    assert n * (cap / n) <= cap;
    assert n * (cap / n - 1) == n * (cap / n) - n;
  }

  lemma OwnLoserCounts(before: Shard, after: Shard, t: TenantId, q: nat, ts: set<TenantId>)
    requires FairTo(before, after, t) && Lost(before, after, t)
    requires Tenants(before) + {t} <= ts && Count(before, t) < q
    ensures q >= 2 && Tenants(after) <= ts && t in ts
    ensures (forall u :: u in ts ==> Count(after, u) <= q - 1) && Count(after, t) <= q - 2
  {
    CountShrinks(after, before, t);
    TenantsShrink(after, before);
  }

  /** A tenant's own insert takes none of its slots either, as long as it holds less than its equal share. */
  lemma OwnInsertBelowFloorIsSafe(before: Shard, after: Shard, t: TenantId, cap: nat, ts: set<TenantId>)
    requires FairTo(before, after, t) && |after| == cap - 1 && cap >= 1
    requires Tenants(before) + {t} <= ts && Count(before, t) < cap / |ts|
    ensures !Lost(before, after, t)
  {
    hide FairTo, Lost, Count;
    if Lost(before, after, t) {
      OwnLoserCounts(before, after, t, cap / |ts|, ts);
      SizeWithOneSmaller(after, ts, t, cap / |ts| - 1);
      BelowTheFloor(|ts|, cap);
      assert false;
    }
  }

  lemma TenantsShrink(after: Shard, before: Shard)
    requires SubShard(after, before)
    ensures Tenants(after) <= Tenants(before)
  {
    forall u | u in Tenants(after) ensures u in Tenants(before) {
      var k :| k in after && k.tenant == u;
      assert k in before;
    }
  }
}
