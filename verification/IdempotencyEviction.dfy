/** `evict_if_needed` and its victim rule: TTL sweep first, then the largest holder pays, oldest slot
    first, until one slot below the cap is reached. */
module IdempotencyEviction {
  import opened Prelude
  import opened CapacityPlan
  import opened IdempotencySpec

  type Counts = map<TenantId, nat>

  // --- The victim ------------------------------------------------------------------------------

  /** The order `max_by` compares in: count, then being the inserter, then the tenant id. */
  predicate Outranks(counts: Counts, inserting: TenantId, a: TenantId, b: TenantId)
    requires a in counts && b in counts
  {
    || counts[a] > counts[b]
    || (counts[a] == counts[b] && a == inserting && b != inserting)
    || (counts[a] == counts[b] && (a == inserting <==> b == inserting) && a >= b)
  }

  lemma {:induction false} SomeoneOutranksAll(
    counts: Counts, inserting: TenantId, ts: set<TenantId>) returns (v: TenantId)
    requires ts != {} && ts <= counts.Keys
    ensures v in ts && forall t :: t in ts ==> Outranks(counts, inserting, v, t)
    decreases ts
  {
    var t :| t in ts;
    if ts == {t} {
      v := t;
    } else {
      var w := SomeoneOutranksAll(counts, inserting, ts - {t});
      v := if Outranks(counts, inserting, w, t) then w else t;
      forall u | u in ts ensures Outranks(counts, inserting, v, u) {
        if u != t { OutranksIsAnOrder(counts, inserting, t, w, u); }
      }
    }
  }

  lemma OutranksIsAnOrder(counts: Counts, inserting: TenantId, a: TenantId, b: TenantId, c: TenantId)
    requires a in counts && b in counts && c in counts
    ensures Outranks(counts, inserting, a, b) || Outranks(counts, inserting, b, a)
    ensures Outranks(counts, inserting, a, b) && Outranks(counts, inserting, b, c) ==> Outranks(counts, inserting, a, c)
  {
  }

  /** Which tenant pays; the inserter loses ties, and the id makes the choice deterministic. */
  function EvictionVictim(counts: Counts, inserting: TenantId): (victim: Option<TenantId>)
    ensures counts == map[] <==> victim.None?
    ensures victim.Some? ==>
              victim.value in counts && forall t :: t in counts ==> Outranks(counts, inserting, victim.value, t)
    ensures victim.Some? ==> forall t :: t in counts && t != victim.value ==>
              var v := victim.value;
              || counts[t] < counts[v]
              || (counts[t] == counts[v] && (v == inserting || (t != inserting && t < v)))
  {
    if counts == map[] then None
    else
      assert exists v :: v in counts && forall t :: t in counts ==> Outranks(counts, inserting, v, t) by {
        assert counts.Keys != {};
        var v := SomeoneOutranksAll(counts, inserting, counts.Keys);
      }
      var v :| v in counts && forall t :: t in counts ==> Outranks(counts, inserting, v, t);
      Some(v)
  }

  // --- Tallies ---------------------------------------------------------------------------------

  /** `counts` is the tally of m, with no entry for a tenant that holds nothing. */
  ghost predicate Tally(counts: Counts, m: Shard) {
    && counts.Keys == Tenants(m)
    && forall t :: t in counts ==> counts[t] == Count(m, t)
  }

  lemma CountAfterAdd(m: Shard, k: Key, slot: Slot)
    requires k !in m
    ensures Count(m[k := slot], k.tenant) == Count(m, k.tenant) + 1
    ensures forall t :: t != k.tenant ==> Count(m[k := slot], t) == Count(m, t)
    ensures Tenants(m[k := slot]) == Tenants(m) + {k.tenant}
  {
    assert KeysOf(m[k := slot], k.tenant) == KeysOf(m, k.tenant) + {k};
    forall t | t != k.tenant ensures Count(m[k := slot], t) == Count(m, t) {
      assert KeysOf(m[k := slot], t) == KeysOf(m, t);
    }
    forall t | t in Tenants(m) ensures t in Tenants(m[k := slot]) {
      var l :| l in m && l.tenant == t;
      assert l in m[k := slot];
    }
    assert k in m[k := slot];
  }

  lemma PutBack(m: Shard, k: Key)
    requires k in m
    ensures (m - {k})[k := m[k]] == m
  {
  }

  lemma TallyAfterRemove(counts: Counts, m: Shard, k: Key)
    requires Tally(counts, m) && k in m
    ensures k.tenant in counts && counts[k.tenant] >= 1
    ensures Tally(if counts[k.tenant] > 1 then counts[k.tenant := counts[k.tenant] - 1] else counts - {k.tenant},
                  m - {k})
  {
    var rest := m - {k};
    PutBack(m, k);
    CountAfterAdd(rest, k, m[k]);
    assert Count(m, k.tenant) == Count(rest, k.tenant) + 1;
    if Count(rest, k.tenant) == 0 {
      assert KeysOf(rest, k.tenant) == {};
      assert k.tenant !in Tenants(rest);
    } else {
      assert KeysOf(rest, k.tenant) != {};
      var l :| l in KeysOf(rest, k.tenant);
      assert k.tenant in Tenants(rest);
    }
  }

  /** The counting pass, in whatever order the map enumerates its keys. */
  method CountTenants(m: Shard) returns (counts: Counts)
    ensures Tally(counts, m)
  {
    counts := map[];
    var rest := m.Keys;
    ghost var seen: Shard := map[];
    while rest != {}
      invariant rest <= m.Keys && seen == m - rest
      invariant Tally(counts, seen)
      decreases rest
    {
      var k :| k in rest;
      CountAfterAdd(seen, k, m[k]);
      assert Count(seen, k.tenant) == if k.tenant in counts then counts[k.tenant] else 0 by {
        if k.tenant !in counts { assert KeysOf(seen, k.tenant) == {}; }
      }
      counts := counts[k.tenant := if k.tenant in counts then counts[k.tenant] + 1 else 1];
      rest := rest - {k};
      seen := seen[k := m[k]];
    }
    assert seen == m;
  }

  // --- The age list ----------------------------------------------------------------------------

  /** `order` enumerates the keys of m, each once. */
  ghost predicate Enumerates(order: seq<Key>, m: Shard) {
    && (forall i :: 0 <= i < |order| ==> order[i] in m)
    && (forall k :: k in m ==> k in order)
    && (forall i, j :: 0 <= i < j < |order| ==> order[i] != order[j])
  }

  ghost predicate ByAge(order: seq<Key>, m: Shard)
    requires forall i :: 0 <= i < |order| ==> order[i] in m
  {
    forall i, j :: 0 <= i < j < |order| ==> m[order[i]].Created() <= m[order[j]].Created()
  }

  /** `oldest_first`: every slot of m, oldest first. */
  ghost predicate Listed(order: seq<Key>, m: Shard) {
    Enumerates(order, m) && ByAge(order, m)
  }

  /** Where a stable sort on creation time puts the next key. */
  function Rank(order: seq<Key>, m: Shard, created: nat): (p: nat)
    requires forall i :: 0 <= i < |order| ==> order[i] in m
    requires ByAge(order, m)
    ensures p <= |order|
    ensures forall i :: 0 <= i < p ==> m[order[i]].Created() <= created
    ensures forall i :: p <= i < |order| ==> created < m[order[i]].Created()
  {
    if order == [] || created < m[order[0]].Created() then 0 else 1 + Rank(order[1..], m, created)
  }

  lemma InsertIndex(order: seq<Key>, p: nat, k: Key)
    requires p <= |order|
    ensures var r := order[..p] + [k] + order[p..];
            && |r| == |order| + 1
            && forall i :: 0 <= i < |r| ==> r[i] == if i < p then order[i] else if i == p then k else order[i - 1]
  {
  }

  lemma EnumeratesInsert(order: seq<Key>, m: Shard, p: nat, k: Key, slot: Slot)
    requires Enumerates(order, m) && k !in m && p <= |order|
    ensures Enumerates(order[..p] + [k] + order[p..], m[k := slot])
  {
    var r := order[..p] + [k] + order[p..];
    InsertIndex(order, p, k);
    forall l | l in m[k := slot] ensures l in r {
      InsertKeepsMembers(order, m, p, k, l);
    }
    forall i, j | 0 <= i < j < |r| ensures r[i] != r[j] {
      assert i != p ==> r[i] in m;
      assert j != p ==> r[j] in m;
    }
  }

  lemma InsertKeepsMembers(order: seq<Key>, m: Shard, p: nat, k: Key, l: Key)
    requires Enumerates(order, m) && p <= |order| && (l in m || l == k)
    ensures l in order[..p] + [k] + order[p..]
  {
    var r := order[..p] + [k] + order[p..];
    InsertIndex(order, p, k);
    if l == k {
      assert r[p] == k;
    } else {
      var i :| 0 <= i < |order| && order[i] == l;
      assert r[if i < p then i else i + 1] == l;
    }
  }

  lemma ByAgeInsert(order: seq<Key>, m: Shard, p: nat, k: Key, slot: Slot)
    requires (forall i :: 0 <= i < |order| ==> order[i] in m) && ByAge(order, m) && k !in m && p <= |order|
    requires forall i :: 0 <= i < p ==> m[order[i]].Created() <= slot.Created()
    requires forall i :: p <= i < |order| ==> slot.Created() <= m[order[i]].Created()
    ensures forall i :: 0 <= i < |order| + 1 ==> (order[..p] + [k] + order[p..])[i] in m[k := slot]
    ensures ByAge(order[..p] + [k] + order[p..], m[k := slot])
  {
    var r, m' := order[..p] + [k] + order[p..], m[k := slot];
    assert forall i :: 0 <= i < p ==> r[i] == order[i];
    assert r[p] == k;
    assert forall i :: p < i < |r| ==> r[i] == order[i - 1];
    forall i, j | 0 <= i < j < |r| ensures m'[r[i]].Created() <= m'[r[j]].Created() {
      assert i != p ==> m'[r[i]] == m[order[if i < p then i else i - 1]];
      assert j != p ==> m'[r[j]] == m[order[if j < p then j else j - 1]];
    }
  }

  method OldestFirst(m: Shard) returns (order: seq<Key>)
    ensures Listed(order, m)
  {
    order := [];
    var rest := m.Keys;
    ghost var seen: Shard := map[];
    while rest != {}
      invariant rest <= m.Keys && seen == m - rest
      invariant Listed(order, seen)
      decreases rest
    {
      var k :| k in rest;
      RankIsLocal(order, seen, m, m[k].Created());
      var p := Rank(order, m, m[k].Created());
      EnumeratesInsert(order, seen, p, k, m[k]);
      ByAgeInsert(order, seen, p, k, m[k]);
      order := order[..p] + [k] + order[p..];
      rest := rest - {k};
      seen := seen[k := m[k]];
    }
    assert seen == m;
  }

  lemma {:induction false} RankIsLocal(order: seq<Key>, a: Shard, b: Shard, created: nat)
    requires SubShard(a, b) && forall i :: 0 <= i < |order| ==> order[i] in a
    requires ByAge(order, a)
    ensures (forall i :: 0 <= i < |order| ==> order[i] in b) && ByAge(order, b)
    ensures Rank(order, a, created) == Rank(order, b, created)
  {
    if order != [] {
      RankIsLocal(order[1..], a, b, created);
    }
  }

  /** `oldest_first.iter().position(..)`: the victim's oldest remaining slot. */
  function Position(order: seq<Key>, t: TenantId): (p: nat)
    requires exists i :: 0 <= i < |order| && order[i].tenant == t
    ensures p < |order| && order[p].tenant == t
    ensures forall i :: 0 <= i < p ==> order[i].tenant != t
  {
    if order[0].tenant == t then 0 else
      assert exists i :: 0 <= i < |order[1..]| && order[1..][i].tenant == t by {
        var i :| 0 <= i < |order| && order[i].tenant == t;
        assert order[1..][i - 1].tenant == t;
      }
      1 + Position(order[1..], t)
  }

  lemma RemoveIndex(order: seq<Key>, p: nat)
    requires p < |order|
    ensures var r := order[..p] + order[p + 1..];
            && |r| == |order| - 1
            && forall i :: 0 <= i < |r| ==> r[i] == order[if i < p then i else i + 1]
  {
  }

  lemma EnumeratesRemove(order: seq<Key>, m: Shard, p: nat)
    requires Enumerates(order, m) && p < |order|
    ensures Enumerates(order[..p] + order[p + 1..], m - {order[p]})
  {
    var r := order[..p] + order[p + 1..];
    RemoveIndex(order, p);
    forall l | l in m - {order[p]} ensures l in r {
      var i :| 0 <= i < |order| && order[i] == l;
      assert r[if i < p then i else i - 1] == l;
    }
  }

  lemma ListedRemove(order: seq<Key>, m: Shard, p: nat)
    requires Listed(order, m) && p < |order|
    ensures Listed(order[..p] + order[p + 1..], m - {order[p]})
  {
    EnumeratesRemove(order, m, p);
    RemoveIndex(order, p);
  }

  // --- One eviction keeps the outcome fair -----------------------------------------------------

  lemma VictimHoldsMost(counts: Counts, m: Shard, inserting: TenantId, v: TenantId)
    requires Tally(counts, m) && EvictionVictim(counts, inserting) == Some(v)
    ensures forall b :: Count(m, b) <= Count(m, v)
    ensures v != inserting ==> Count(m, inserting) < Count(m, v)
  {
    forall b | b !in counts ensures Count(m, b) == 0 {
      assert KeysOf(m, b) == {};
    }
    assert Count(m, v) > 0 by {
      var k :| k in m && k.tenant == v;
      assert k in KeysOf(m, v);
    }
  }

  lemma CountAfterRemove(m: Shard, k: Key)
    requires k in m
    ensures Count(m, k.tenant) == Count(m - {k}, k.tenant) + 1
    ensures forall t :: t != k.tenant ==> Count(m - {k}, t) == Count(m, t)
  {
    PutBack(m, k);
    CountAfterAdd(m - {k}, k, m[k]);
  }

  lemma FairCounts(u: Shard, m: Shard, inserting: TenantId, k: Key)
    requires FairTo(u, m, inserting) && k in m
    requires forall b :: Count(m, b) <= Count(m, k.tenant)
    requires k.tenant != inserting ==> Count(m, inserting) < Count(m, k.tenant)
    ensures forall a, b :: Lost(u, m - {k}, a) ==> Count(m - {k}, b) <= Count(m - {k}, a) + 1
    ensures forall a :: Lost(u, m - {k}, a) && a != inserting ==> Count(m - {k}, inserting) <= Count(m - {k}, a)
  {
    CountAfterRemove(m, k);
    forall a | Lost(u, m - {k}, a) && a != k.tenant ensures Lost(u, m, a) {
      var l :| l in u && l !in m - {k} && l.tenant == a;
      assert l !in m;
    }
  }

  lemma FairAges(u: Shard, m: Shard, inserting: TenantId, order: seq<Key>, p: nat)
    requires FairTo(u, m, inserting) && Listed(order, m) && p < |order|
    requires forall i :: 0 <= i < p ==> order[i].tenant != order[p].tenant
    ensures forall k, l :: k in u && k !in m - {order[p]} && l in m - {order[p]} && k.tenant == l.tenant ==>
              u[k].Created() <= u[l].Created()
  {
    forall l | l in m - {order[p]} && l.tenant == order[p].tenant ensures u[order[p]].Created() <= u[l].Created() {
      var i :| 0 <= i < |order| && order[i] == l;
      assert p < i;
    }
  }

  /** Taking the oldest slot of the largest holder. */
  lemma FairStep(u: Shard, m: Shard, inserting: TenantId, counts: Counts, order: seq<Key>, v: TenantId, p: nat)
    requires FairTo(u, m, inserting) && Tally(counts, m) && Listed(order, m)
    requires EvictionVictim(counts, inserting) == Some(v) && p < |order| && order[p].tenant == v
    requires forall i :: 0 <= i < p ==> order[i].tenant != v
    ensures FairTo(u, m - {order[p]}, inserting)
  {
    VictimHoldsMost(counts, m, inserting, v);
    FairCounts(u, m, inserting, order[p]);
    FairAges(u, m, inserting, order, p);
  }

  lemma VictimIsListed(counts: Counts, m: Shard, order: seq<Key>, v: TenantId)
    requires Tally(counts, m) && Listed(order, m) && v in counts
    ensures exists i :: 0 <= i < |order| && order[i].tenant == v
  {
    var k :| k in m && k.tenant == v;
    var i :| 0 <= i < |order| && order[i] == k;
  }

  lemma SizeAfterRemove(m: Shard, k: Key)
    requires k in m
    ensures |m - {k}| == |m| - 1
  {
    assert (m - {k}).Keys == m.Keys - {k};
    assert |m.Keys - {k}| == |m.Keys| - 1;
  }

  /** Stage 2, on a shard at or above its cap: the largest holder pays until one slot is free. */
  method EvictFairly(m: Shard, inserting: TenantId, cap: nat) returns (after: Shard)
    requires 1 <= cap <= |m|
    ensures |after| == cap - 1 && FairTo(m, after, inserting)
  {
    after := m;
    var counts := CountTenants(m);
    var oldestFirst := OldestFirst(m);
    while |after| >= cap
      invariant |after| >= cap - 1 && FairTo(m, after, inserting)
      invariant Tally(counts, after) && Listed(oldestFirst, after)
      decreases |after|
    {
      SomeoneHoldsSlots(counts, after);
      var victim := EvictionVictim(counts, inserting).value;
      VictimIsListed(counts, after, oldestFirst, victim);
      var pos := Position(oldestFirst, victim);
      var k := oldestFirst[pos];
      FairStep(m, after, inserting, counts, oldestFirst, victim, pos);
      ListedRemove(oldestFirst, after, pos);
      TallyAfterRemove(counts, after, k);
      SizeAfterRemove(after, k);
      oldestFirst := oldestFirst[..pos] + oldestFirst[pos + 1..];
      after := after - {k};
      counts := if counts[victim] > 1 then counts[victim := counts[victim] - 1] else counts - {victim};
    }
  }

  lemma SomeoneHoldsSlots(counts: Counts, m: Shard)
    requires Tally(counts, m) && |m| >= 1
    ensures counts != map[]
  {
    assert m.Keys != {};
    var k :| k in m.Keys;
    assert k.tenant in Tenants(m);
  }

  /** `evict_if_needed`. */
  method EvictIfNeeded(m: Shard, now: nat, inserting: TenantId, cap: nat) returns (after: Shard)
    requires cap >= 1
    ensures EvictedTo(m, now, inserting, cap, after)
    ensures |m| >= cap ==> forall k :: k in after ==> k in m && after[k] == m[k] && !Dead(after[k], now)
    ensures (exists k :: k in Alive(m, now) && k !in after) ==> |Alive(m, now)| >= cap
  {
    after := m;
    if |after| < cap {
      DeadGoFirst(m, now, inserting, cap, after);
      return;
    }
    after := Unexpired(after, now);
    if |after| < cap {
      DeadGoFirst(m, now, inserting, cap, after);
      return;
    }
    after := EvictFairly(after, inserting, cap);
    DeadGoFirst(m, now, inserting, cap, after);
  }
}
