/** The slow path of a cache write: list the tenant's entries, then choose which of them go. */
module EvictionPlan {
  import opened Prelude
  import opened CapacityPlan
  import opened CacheSpec

  datatype Candidate = Candidate(key: CacheKey, insertedAt: nat, cost: nat, expired: bool)

  // --- Candidate lists -------------------------------------------------------------------------

  /** `cs` lists exactly the keys `ks` of m, each once, with what eviction looks at. */
  ghost predicate Lists(cs: seq<Candidate>, m: Contents, now: nat, ks: set<CacheKey>) {
    && ks <= m.Keys
    && (forall i :: 0 <= i < |cs| ==> cs[i].key in ks && cs[i] == CandidateFor(m, cs[i].key, now))
    && (forall k :: k in ks ==> exists i :: 0 <= i < |cs| && cs[i].key == k)
    && (forall i, j :: 0 <= i < j < |cs| ==> cs[i].key != cs[j].key)
  }

  ghost function CandidateFor(m: Contents, k: CacheKey, now: nat): Candidate
    requires k in m
  {
    Candidate(k, m[k].insertedAt, m[k].Cost(), m[k].Expired(now))
  }

  ghost predicate ByAge(cs: seq<Candidate>) {
    forall i, j :: 0 <= i < j < |cs| ==> cs[i].insertedAt <= cs[j].insertedAt
  }

  /** Where a stable `sort_by_key` on insertion time puts the next candidate. */
  function AgeRank(cs: seq<Candidate>, c: Candidate): (p: nat)
    requires ByAge(cs)
    ensures p <= |cs|
    ensures forall i :: 0 <= i < p ==> cs[i].insertedAt <= c.insertedAt
    ensures forall i :: p <= i < |cs| ==> c.insertedAt < cs[i].insertedAt
  {
    if cs == [] || c.insertedAt < cs[0].insertedAt then 0 else 1 + AgeRank(cs[1..], c)
  }

  lemma ListsInsert(cs: seq<Candidate>, p: nat, c: Candidate, m: Contents, now: nat, ks: set<CacheKey>)
    requires Lists(cs, m, now, ks) && p <= |cs|
    requires c.key in m && c.key !in ks && c == CandidateFor(m, c.key, now)
    ensures Lists(cs[..p] + [c] + cs[p..], m, now, ks + {c.key})
  {
    var r := cs[..p] + [c] + cs[p..];
    forall k | k in ks + {c.key} ensures exists i :: 0 <= i < |r| && r[i].key == k {
      if k == c.key {
        assert r[p].key == k;
      } else {
        var i :| 0 <= i < |cs| && cs[i].key == k;
        assert r[if i < p then i else i + 1].key == k;
      }
    }
  }

  lemma AgeInsert(cs: seq<Candidate>, c: Candidate)
    requires ByAge(cs)
    ensures var p := AgeRank(cs, c); ByAge(cs[..p] + [c] + cs[p..])
  {
  }

  /** The keys of the first n candidates that are not expired. */
  ghost function LiveAmong(cs: seq<Candidate>, n: nat): set<CacheKey>
    requires n <= |cs|
  {
    set i | 0 <= i < n && !cs[i].expired :: cs[i].key
  }

  lemma LiveAmongAll(cs: seq<Candidate>, m: Contents, now: nat, ks: set<CacheKey>)
    requires Lists(cs, m, now, ks)
    ensures LiveAmong(cs, |cs|) == set k | k in ks && !m[k].Expired(now)
  {
    forall k | k in ks && !m[k].Expired(now) ensures k in LiveAmong(cs, |cs|) {
      var i :| 0 <= i < |cs| && cs[i].key == k;
    }
  }

  lemma LiveAmongNext(cs: seq<Candidate>, n: nat, m: Contents, now: nat, ks: set<CacheKey>)
    requires n < |cs| && Lists(cs, m, now, ks)
    ensures LiveAmong(cs, n + 1) == LiveAmong(cs, n) + if cs[n].expired then {} else {cs[n].key}
    ensures cs[n].key !in LiveAmong(cs, n)
  {
  }

  /** The unexpired candidates, oldest first. */
  method OldestFirst(cs: seq<Candidate>, ghost m: Contents, ghost now: nat, ghost ks: set<CacheKey>)
      returns (sorted: seq<Candidate>)
    requires Lists(cs, m, now, ks)
    ensures ByAge(sorted) && Lists(sorted, m, now, set k | k in ks && !m[k].Expired(now))
  {
    sorted := [];
    for n := 0 to |cs|
      invariant ByAge(sorted) && Lists(sorted, m, now, LiveAmong(cs, n))
    {
      LiveAmongNext(cs, n, m, now, ks);
      if cs[n].expired {
        assert LiveAmong(cs, n + 1) == LiveAmong(cs, n);
      } else {
        var p := AgeRank(sorted, cs[n]);
        ListsInsert(sorted, p, cs[n], m, now, LiveAmong(cs, n));
        AgeInsert(sorted, cs[n]);
        sorted := sorted[..p] + [cs[n]] + sorted[p..];
      }
    }
    LiveAmongAll(cs, m, now, ks);
  }

  lemma ListsAppend(cs: seq<Candidate>, c: Candidate, m: Contents, now: nat, ks: set<CacheKey>)
    requires Lists(cs, m, now, ks)
    requires c.key in m && c.key !in ks && c == CandidateFor(m, c.key, now)
    ensures Lists(cs + [c], m, now, ks + {c.key})
  {
    ListsInsert(cs, |cs|, c, m, now, ks);
    assert cs[..|cs|] + [c] + cs[|cs|..] == cs + [c];
  }

  // --- Collecting and choosing -----------------------------------------------------------------

  ghost function Below(m: Contents, t: TenantId, n: nat): set<CacheKey> {
    set k | k in m && k.tenant == t && k.Shard() < n
  }

  /** The scan of one shard, in whatever order the map enumerates its entries. */
  method CollectShard(
    shard: Contents, t: TenantId, now: nat, cs: seq<Candidate>, total: nat, ghost full: Contents, ghost n: nat)
      returns (cs': seq<Candidate>, total': nat)
    requires forall k :: k in shard <==> k in full && k.Shard() == n
    requires forall k :: k in shard ==> shard[k] == full[k]
    requires Lists(cs, full, now, Below(full, t, n)) && total == CostOf(full, Below(full, t, n))
    requires Usage(full, t) <= U64_MAX
    ensures Lists(cs', full, now, Below(full, t, n + 1)) && total' == CostOf(full, Below(full, t, n + 1))
  {
    cs', total' := cs, total;
    var rest := shard.Keys;
    ghost var done := Below(full, t, n);
    assert Scanned(shard, rest, t) == {};
    while rest != {}
      invariant rest <= shard.Keys
      invariant done == Below(full, t, n) + Scanned(shard, rest, t)
      invariant Lists(cs', full, now, done) && total' == CostOf(full, done)
      decreases rest
    {
      var k :| k in rest;
      ScannedNext(shard, rest, t, k);
      rest := rest - {k};
      if k.tenant == t {
        var c := Candidate(k, shard[k].insertedAt, shard[k].Cost(), shard[k].Expired(now));
        CollectOne(cs', c, full, now, t, done);
        cs' := cs' + [c];
        total' := SatAdd(total', shard[k].Cost());
        done := done + {k};
      }
    }
    assert done == Below(full, t, n + 1);
  }

  ghost function Scanned(shard: Contents, rest: set<CacheKey>, t: TenantId): set<CacheKey> {
    set k | k in shard && k !in rest && k.tenant == t
  }

  lemma ScannedNext(shard: Contents, rest: set<CacheKey>, t: TenantId, k: CacheKey)
    requires k in rest && rest <= shard.Keys
    ensures Scanned(shard, rest - {k}, t) == Scanned(shard, rest, t) + if k.tenant == t then {k} else {}
    ensures k !in Scanned(shard, rest, t)
  {
  }

  lemma CollectOne(cs: seq<Candidate>, c: Candidate, m: Contents, now: nat, t: TenantId, done: set<CacheKey>)
    requires Lists(cs, m, now, done) && done <= OfTenant(m, t) && Usage(m, t) <= U64_MAX
    requires c.key in OfTenant(m, t) && c.key !in done && c == CandidateFor(m, c.key, now)
    ensures Lists(cs + [c], m, now, done + {c.key})
    ensures CostOf(m, done + {c.key}) == SatAdd(CostOf(m, done), c.cost)
  {
    ListsAppend(cs, c, m, now, done);
    CostOfAdd(m, done, c.key);
    CostOfSplit(m, OfTenant(m, t), done + {c.key});
  }

  ghost function ExpiredAmong(cs: seq<Candidate>, n: nat): set<CacheKey>
    requires n <= |cs|
  {
    set i | 0 <= i < n && cs[i].expired :: cs[i].key
  }

  ghost function KeysOf(cs: seq<Candidate>, n: nat): set<CacheKey>
    requires n <= |cs|
  {
    set i | 0 <= i < n :: cs[i].key
  }

  lemma ExpiredAmongNext(cs: seq<Candidate>, n: nat, m: Contents, now: nat, ks: set<CacheKey>)
    requires n < |cs| && Lists(cs, m, now, ks)
    ensures ExpiredAmong(cs, n + 1) == ExpiredAmong(cs, n) + if cs[n].expired then {cs[n].key} else {}
    ensures cs[n].key !in ExpiredAmong(cs, n)
  {
  }

  lemma ExpiredAmongAll(cs: seq<Candidate>, m: Contents, now: nat, t: TenantId)
    requires Lists(cs, m, now, OfTenant(m, t))
    ensures ExpiredAmong(cs, |cs|) == ExpiredOf(m, t, now)
  {
    forall k | k in ExpiredOf(m, t, now) ensures k in ExpiredAmong(cs, |cs|) {
      assert k in OfTenant(m, t);
      var i :| 0 <= i < |cs| && cs[i].key == k;
    }
  }

  /** First stage: every expired entry of the tenant goes. */
  method DropExpired(cs: seq<Candidate>, total: nat, ghost full: Contents, ghost now: nat, ghost t: TenantId)
      returns (removed: set<CacheKey>, rest: nat)
    requires Lists(cs, full, now, OfTenant(full, t)) && total == Usage(full, t)
    ensures removed == ExpiredOf(full, t, now) && rest == CostOf(full, LiveOf(full, t, now))
  {
    removed, rest := {}, total;
    ghost var all := OfTenant(full, t);
    assert all - {} == all;
    for n := 0 to |cs|
      invariant removed == ExpiredAmong(cs, n) && removed <= all
      invariant rest == CostOf(full, all - removed)
    {
      ExpiredAmongNext(cs, n, full, now, all);
      if cs[n].expired {
        CostOfRemove(full, all - removed, cs[n].key);
        assert all - removed - {cs[n].key} == all - (removed + {cs[n].key});
        removed := removed + {cs[n].key};
        rest := SatSub(rest, cs[n].cost);
      }
    }
    ExpiredAmongAll(cs, full, now, t);
    assert all - removed == LiveOf(full, t, now);
  }

  lemma KeysOfNext(cs: seq<Candidate>, n: nat, m: Contents, now: nat, ks: set<CacheKey>)
    requires n < |cs| && Lists(cs, m, now, ks)
    ensures KeysOf(cs, n + 1) == KeysOf(cs, n) + {cs[n].key} && cs[n].key !in KeysOf(cs, n) && KeysOf(cs, n + 1) <= ks
  {
  }

  lemma KeysOfAll(cs: seq<Candidate>, m: Contents, now: nat, ks: set<CacheKey>)
    requires Lists(cs, m, now, ks)
    ensures KeysOf(cs, |cs|) == ks
  {
    forall k | k in ks ensures k in KeysOf(cs, |cs|) {
      var i :| 0 <= i < |cs| && cs[i].key == k;
    }
  }

  /** The n oldest are gone and it took all n of them. */
  lemma PrefixIsShortest(cs: seq<Candidate>, n: nat, m: Contents, now: nat, live: set<CacheKey>, budget: nat)
    requires Lists(cs, m, now, live) && ByAge(cs) && 0 < n <= |cs|
    requires CostOf(m, live - KeysOf(cs, n)) <= budget
    requires CostOf(m, live - KeysOf(cs, n - 1)) > budget
    ensures ShortestOldestPrefixGone(m, live, live - KeysOf(cs, n), budget)
  {
    var kept, last := live - KeysOf(cs, n), cs[n - 1].key;
    KeysOfNext(cs, n - 1, m, now, live);
    assert kept + {last} == live - KeysOf(cs, n - 1);
    forall f | f in live && f !in kept ensures m[f].insertedAt <= m[last].insertedAt {
      FirstAreOldest(cs, n, m, now, live, f, last);
    }
    forall f, g | f in live && f !in kept && g in kept ensures m[f].insertedAt <= m[g].insertedAt {
      FirstAreOldest(cs, n, m, now, live, f, g);
    }
  }

  lemma FirstAreOldest(cs: seq<Candidate>, n: nat, m: Contents, now: nat, live: set<CacheKey>, f: CacheKey, g: CacheKey)
    requires Lists(cs, m, now, live) && ByAge(cs) && 0 < n <= |cs|
    requires f in KeysOf(cs, n) && g in live && (g == cs[n - 1].key || g !in KeysOf(cs, n))
    ensures f in live && m[f].insertedAt <= m[g].insertedAt
  {
    var i :| 0 <= i < n && cs[i].key == f;
    var j :| 0 <= j < |cs| && cs[j].key == g;
    assert cs[i] == CandidateFor(m, f, now) && cs[j] == CandidateFor(m, g, now);
    assert i <= j;
  }

  /** Second stage: oldest first until the tenant fits. */
  method DropOldest(
    cs: seq<Candidate>, total: nat, budget: nat, ghost m: Contents, ghost now: nat, ghost live: set<CacheKey>)
      returns (removed: set<CacheKey>, rest: nat)
    requires Lists(cs, m, now, live) && ByAge(cs) && total == CostOf(m, live) > budget
    ensures removed <= live && rest == CostOf(m, live - removed)
    ensures ShortestOldestPrefixGone(m, live, live - removed, budget)
  {
    hide KeysOf, Lists, ByAge, CostOf, ShortestOldestPrefixGone;
    removed, rest := {}, total;
    var n := 0;
    NoKeysYet(cs, m, now, live);
    while n < |cs| && rest > budget
      invariant n <= |cs| && removed == KeysOf(cs, n) && KeysOf(cs, n) <= live
      invariant rest == CostOf(m, live - KeysOf(cs, n))
      invariant n > 0 ==> CostOf(m, live - KeysOf(cs, n - 1)) > budget
    {
      CostWithoutNext(cs, n, m, now, live);
      removed := removed + {cs[n].key};
      rest := SatSub(rest, cs[n].cost);
      n := n + 1;
    }
    PrefixAtExit(cs, n, m, now, live, budget);
  }

  lemma NoKeysYet(cs: seq<Candidate>, m: Contents, now: nat, live: set<CacheKey>)
    requires Lists(cs, m, now, live)
    ensures KeysOf(cs, 0) == {} && live - KeysOf(cs, 0) == live && live <= m.Keys
  {
  }

  lemma PrefixAtExit(cs: seq<Candidate>, n: nat, m: Contents, now: nat, live: set<CacheKey>, budget: nat)
    requires Lists(cs, m, now, live) && ByAge(cs) && n <= |cs| && CostOf(m, live) > budget
    requires n == |cs| || CostOf(m, live - KeysOf(cs, n)) <= budget
    requires n > 0 ==> CostOf(m, live - KeysOf(cs, n - 1)) > budget
    ensures ShortestOldestPrefixGone(m, live, live - KeysOf(cs, n), budget)
  {
    if n == |cs| {
      KeysOfAll(cs, m, now, live);
      assert live - KeysOf(cs, n) == {};
    }
    assert live - KeysOf(cs, 0) == live;
    PrefixIsShortest(cs, n, m, now, live, budget);
  }

  lemma CostWithoutNext(cs: seq<Candidate>, n: nat, m: Contents, now: nat, live: set<CacheKey>)
    requires n < |cs| && Lists(cs, m, now, live)
    ensures KeysOf(cs, n + 1) == KeysOf(cs, n) + {cs[n].key} && KeysOf(cs, n + 1) <= live
    ensures CostOf(m, live - KeysOf(cs, n)) == cs[n].cost + CostOf(m, live - KeysOf(cs, n + 1))
  {
    KeysOfNext(cs, n, m, now, live);
    CostOfRemove(m, live - KeysOf(cs, n), cs[n].key);
    assert live - KeysOf(cs, n) - {cs[n].key} == live - KeysOf(cs, n + 1);
  }

  /** Both stages: which of the tenant's entries go. */
  method ChooseRemovals(
    cs: seq<Candidate>, total: nat, budget: nat, ghost full: Contents, ghost now: nat, ghost t: TenantId)
      returns (removed: set<CacheKey>, rest: nat)
    requires Lists(cs, full, now, OfTenant(full, t)) && total == Usage(full, t)
    ensures removed <= OfTenant(full, t)
    ensures rest == CostOf(full, OfTenant(full, t) - removed)
    ensures EvictedTo(full, t, now, budget, full - removed)
  {
    hide Lists, ByAge, CostOf, ShortestOldestPrefixGone;
    removed, rest := {}, total;
    assert OfTenant(full, t) - {} == OfTenant(full, t);
    if rest > budget {
      removed, rest := DropExpired(cs, total, full, now, t);
      assert OfTenant(full, t) - removed == LiveOf(full, t, now);
    }
    ghost var expired := removed;
    if rest > budget {
      var byAge := OldestFirst(cs, full, now, OfTenant(full, t));
      var live := LiveOf(full, t, now);
      assert live == set k | k in OfTenant(full, t) && !full[k].Expired(now);
      var aged;
      aged, rest := DropOldest(byAge, rest, budget, full, now, live);
      assert live - aged == OfTenant(full, t) - (removed + aged);
      removed := removed + aged;
    }
    assert OfTenant(full - removed, t) == OfTenant(full, t) - removed;
  }
}
