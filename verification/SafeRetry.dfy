/** The safe-retry window over whole runs: what a stored response or a live reservation survives, and
    what every retry made meanwhile is told. */
module SafeRetry {
  import opened Prelude
  import opened CapacityPlan
  import opened IdempotencySpec
  import opened IdempotencyRuns

  predicate Swaps(p: Thread, version: nat) {
    (p.ReserveSwap? || p.StoreSwap? || p.ReleaseSwap?) && p.seen == version
  }

  /** What may happen around a slot of k's tenant: any operation of the tenants ts, k's own included,
      but no store or release of k itself while it is in flight, and no new reservation of k's tenant
      unless that holds less than its equal share floor(cap / K). */
  ghost predicate Spares(c: Config, s: State, action: Action, k: Key, ts: set<TenantId>) {
    action.Swap? && action.thread < |s.threads| && Swaps(s.threads[action.thread], s.version) && ts != {} ==>
      var p := s.threads[action.thread];
      && p.key.tenant in ts
      && ((p.StoreSwap? || p.ReleaseSwap?) && p.key == k ==> !(k in s.shard && s.shard[k].InFlight?))
      && (p.ReserveSwap? && p.key.tenant == k.tenant ==> Count(s.shard - {p.key}, k.tenant) < c.cap / |ts|)
  }

  /** No reservation is installed by a clock reading at which the slot has expired. */
  predicate ReadsBefore(s: State, action: Action, slot: Slot) {
    action.Swap? && action.thread < |s.threads| && s.threads[action.thread].ReserveSwap?
    && s.threads[action.thread].seen == s.version ==>
      !slot.Expired(s.threads[action.thread].now)
  }

  /** The shard is used by tenants ts only, and k's tenant holds at most its equal share. */
  ghost predicate WithinFloor(c: Config, m: Shard, k: Key, ts: set<TenantId>) {
    Tenants(m) <= ts && k.tenant in ts && Count(m, k.tenant) <= c.cap / |ts|
  }

  /** Eviction for anybody's insert leaves an unexpired slot of a tenant within its floor alone. */
  lemma EvictionSparesFloor(
    m: Shard, now: nat, inserting: TenantId, cap: nat, evicted: Shard, ts: set<TenantId>, k: Key)
    requires EvictedTo(m, now, inserting, cap, evicted) && cap >= 1
    requires Tenants(m) + {inserting} <= ts && k in m && !m[k].Expired(now)
    requires Count(m, k.tenant) <= cap / |ts| && (inserting == k.tenant ==> Count(m, k.tenant) < cap / |ts|)
    ensures k in evicted && evicted[k] == m[k]
  {
    var live := Unexpired(m, now);
    assert k in live;
    if |m| >= cap && |live| >= cap {
      CountShrinks(live, m, k.tenant);
      TenantsShrink(live, m);
      if inserting == k.tenant {
        OwnInsertBelowFloorIsSafe(live, evicted, k.tenant, cap, ts);
      } else {
        FloorIsSafe(live, evicted, inserting, cap, k.tenant, ts);
      }
      assert k !in evicted ==> Lost(live, evicted, k.tenant);
    }
  }

  lemma ReserveSparesSlot(c: Config, s: State, t: nat, s': State, k: Key, ts: set<TenantId>)
    requires c.Valid() && Inv(c, s) && t < |s.threads| && SwapNext(c, s, t) == Some(s')
    requires s.threads[t].ReserveSwap? && s.threads[t].seen == s.version
    requires Spares(c, s, Swap(t), k, ts) && WithinFloor(c, s.shard, k, ts)
    requires k in s.shard && ReadsBefore(s, Swap(t), s.shard[k])
    ensures k in s'.shard && s'.shard[k] == s.shard[k] && WithinFloor(c, s'.shard, k, ts)
  {
    hide EvictedTo, FairTo;
    var p := s.threads[t];
    var rest := s.shard - {p.key};
    assert ThreadInv(c, s, p) && p.key != k;
    CountShrinks(rest, s.shard, k.tenant);
    TenantsShrink(rest, s.shard);
    EvictionSparesFloor(rest, p.now, p.key.tenant, c.cap, p.evicted, ts, k);
    EvictedIsSubShard(rest, p.now, p.key.tenant, c.cap, p.evicted);
    AfterReserve(c, rest, p.evicted, p.key, InFlight(p.now, c.ttl), k, ts);
  }

  lemma AfterReserve(c: Config, rest: Shard, kept: Shard, key: Key, marker: Slot, k: Key, ts: set<TenantId>)
    requires SubShard(kept, rest) && key !in rest && key.tenant in ts && WithinFloor(c, rest, k, ts)
    requires key.tenant == k.tenant ==> Count(rest, k.tenant) < c.cap / |ts|
    ensures WithinFloor(c, kept[key := marker], k, ts)
  {
    var m := kept[key := marker];
    TenantsShrink(kept, rest);
    forall u | u in Tenants(m) ensures u in ts {
      var l :| l in m && l.tenant == u;
      assert l == key || l.tenant in Tenants(kept);
    }
    CountShrinks(kept, rest, k.tenant);
    if key.tenant == k.tenant {
      assert KeysOf(m, k.tenant) == KeysOf(kept, k.tenant) + {key};
    } else {
      assert KeysOf(m, k.tenant) == KeysOf(kept, k.tenant);
    }
  }

  lemma OtherSwapSparesSlot(c: Config, s: State, t: nat, s': State, k: Key, ts: set<TenantId>)
    requires c.Valid() && Inv(c, s) && t < |s.threads| && SwapNext(c, s, t) == Some(s')
    requires !(s.threads[t].ReserveSwap? && s.threads[t].seen == s.version)
    requires Spares(c, s, Swap(t), k, ts) && WithinFloor(c, s.shard, k, ts) && k in s.shard
    ensures k in s'.shard && s'.shard[k] == s.shard[k] && WithinFloor(c, s'.shard, k, ts)
  {
    hide EvictedTo, FairTo;
    var p := s.threads[t];
    assert ThreadInv(c, s, p);
    if p.StoreSwap? && p.seen == s.version {
      assert Tenants(s'.shard) == Tenants(s.shard) && KeysOf(s'.shard, k.tenant) == KeysOf(s.shard, k.tenant) by {
        assert s'.shard.Keys == s.shard.Keys;
      }
    } else if p.ReleaseSwap? && p.seen == s.version {
      CountShrinks(s'.shard, s.shard, k.tenant);
      TenantsShrink(s'.shard, s.shard);
    }
  }

  lemma StepSparesSlot(c: Config, s: State, action: Action, s': State, k: Key, ts: set<TenantId>)
    requires c.Valid() && Inv(c, s) && Step(c, s, action) == Some(s')
    requires Spares(c, s, action, k, ts) && WithinFloor(c, s.shard, k, ts)
    requires k in s.shard && ReadsBefore(s, action, s.shard[k])
    ensures k in s'.shard && s'.shard[k] == s.shard[k] && WithinFloor(c, s'.shard, k, ts)
  {
    hide EvictedTo, Spares, WithinFloor, Inv, ReadsBefore;
    match action {
      case Load(t, evicted) => LoadFrame(c, s, t, evicted, s');
      case Swap(t) =>
        if s.threads[t].ReserveSwap? && s.threads[t].seen == s.version {
          ReserveSparesSlot(c, s, t, s', k, ts);
        } else {
          OtherSwapSparesSlot(c, s, t, s', k, ts);
        }
      case _ =>
    }
  }

  /** The run from state i to state j sparing k's slot, with no reservation in between that was made by
      a reading past the slot's expiry. The clock itself may move either way. */
  ghost predicate Window(
    c: Config, states: seq<State>, actions: seq<Action>, i: nat, j: nat, k: Key, ts: set<TenantId>)
  {
    && c.Valid() && Run(c, states, actions) && i <= j < |states|
    && k in states[i].shard && WithinFloor(c, states[i].shard, k, ts)
    && (forall n :: i <= n < j ==> Spares(c, states[n], actions[n], k, ts))
    && (forall n :: i <= n < j ==> ReadsBefore(states[n], actions[n], states[i].shard[k]))
  }

  /** However many operations the tenants run, however they interleave and whatever the clock does, a slot
      of a tenant within its equal share is untouched until a reservation reads a time past its expiry. */
  lemma {:induction false} FloodCannotTouchSlot(
    c: Config, states: seq<State>, actions: seq<Action>, i: nat, j: nat, k: Key, ts: set<TenantId>)
    requires Window(c, states, actions, i, j, k, ts)
    ensures k in states[j].shard && states[j].shard[k] == states[i].shard[k]
    ensures WithinFloor(c, states[j].shard, k, ts)
    decreases j
  {
    hide Spares, WithinFloor, Step, Inv, ReadsBefore;
    if i < j {
      FloodCannotTouchSlot(c, states, actions, i, j - 1, k, ts);
      RunInv(c, states, actions, j - 1);
      assert StepAt(c, states, actions, j - 1);
      StepSparesSlot(c, states[j - 1], actions[j - 1], states[j], k, ts);
    }
  }

  /** So a retry never reaches the provider: every `reserve` of the key whose clock reading is before the
      stored response expires is told that very response, or that its fingerprint differs. */
  lemma RetryIsAnsweredFromStore(
    c: Config, states: seq<State>, actions: seq<Action>, i: nat, j: nat, k: Key, ts: set<TenantId>,
    t: nat, evicted: Shard, r: Response)
    requires Window(c, states, actions, i, j, k, ts) && j < |actions| && states[i].shard[k] == Stored(r)
    requires actions[j] == Load(t, evicted) && t < |states[j].threads|
    requires states[j].threads[t].Reserving? && states[j].threads[t].key == k
    requires !Stored(r).Expired(states[j].threads[t].now)
    ensures var p := states[j].threads[t];
            states[j + 1].outcomes == states[j].outcomes +
              [if r.fingerprint == p.fingerprint then Replayed(k, p.fingerprint, p.now, r) else Mismatch(k)]
    ensures states[j + 1].shard == states[j].shard
  {
    FloodCannotTouchSlot(c, states, actions, i, j, k, ts);
    assert StepAt(c, states, actions, j);
  }

  /** No reservation evicts a living slot while a dead one stays: in any run, a reservation that removes
      another key's slot that is alive by its reading found the shard full of living ones, and publishes
      no slot but its own marker whose lifetime is over by that reading. */
  lemma LivingOutlastDead(c: Config, states: seq<State>, actions: seq<Action>, n: nat, t: nat, k: Key)
    requires c.Valid() && Run(c, states, actions) && n < |actions| && actions[n] == Swap(t)
    requires t < |states[n].threads| && states[n].threads[t].ReserveSwap?
    requires var p := states[n].threads[t];
             k in states[n].shard && k != p.key && !Dead(states[n].shard[k], p.now) && k !in states[n + 1].shard
    ensures var p, next := states[n].threads[t], states[n + 1].shard;
            && |Alive(states[n].shard - {p.key}, p.now)| >= c.cap
            && forall d :: d in next && d != p.key ==> !Dead(next[d], p.now)
  {
    hide EvictedTo, Dead, FairTo;
    var p := states[n].threads[t];
    RunInv(c, states, actions, n);
    assert StepAt(c, states, actions, n) && ThreadInv(c, states[n], p);
    ReclaimTakesDeadFirst(states[n].shard, p.key, p.now, c.cap, c.ttl, states[n + 1].shard, k);
  }

  /** A clock that never steps back keeps every reading before the expiry while the clock is. */
  lemma MonotoneWindow(
    c: Config, states: seq<State>, actions: seq<Action>, i: nat, j: nat, k: Key, ts: set<TenantId>)
    requires c.Valid() && Run(c, states, actions) && Monotone(states, actions) && i <= j < |states|
    requires WithinFloor(c, states[i].shard, k, ts) && Live(states[i].shard, k, states[j].clock)
    requires forall n :: i <= n < j ==> Spares(c, states[n], actions[n], k, ts)
    ensures Window(c, states, actions, i, j, k, ts)
    ensures forall t :: 0 <= t < |states[j].threads| && states[j].threads[t].Reserving? ==>
              !states[i].shard[k].Expired(states[j].threads[t].now)
  {
    hide Spares, WithinFloor, Step;
    forall n | i <= n < j ensures ReadsBefore(states[n], actions[n], states[i].shard[k]) {
      RunReads(c, states, actions, n);
      ClockGrows(c, states, actions, n, j);
    }
    RunReads(c, states, actions, j);
  }
}
