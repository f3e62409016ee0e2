/** Whose reservation a store promotes and a release removes. Slots carry no owner, so ownership is read
    off the history: the reservation in a slot is the latest one that succeeded for its key. */
module ReservationOwnership {
  import opened Prelude
  import opened CapacityPlan
  import opened IdempotencySpec
  import opened IdempotencyRuns
  import opened SafeRetry

  predicate Reserves(o: Outcome, k: Key) { o.Reserved? && o.key == k }

  /** No reservation of k succeeded after the n-th outcome. */
  ghost predicate NoneSince(os: seq<Outcome>, k: Key, n: nat) {
    forall m :: n < m < |os| ==> !Reserves(os[m], k)
  }

  ghost predicate Latest(os: seq<Outcome>, k: Key, n: nat) {
    n < |os| && Reserves(os[n], k) && NoneSince(os, k, n)
  }

  /** An in-flight slot is the marker of the latest reservation of its key. */
  ghost predicate OwnedAt(c: Config, s: State, k: Key) {
    k in s.shard && s.shard[k].InFlight? ==>
      exists n: nat :: Latest(s.outcomes, k, n) && s.shard[k] == InFlight(s.outcomes[n].now, c.ttl)
  }

  lemma OutcomesGrowByOne(c: Config, s: State, action: Action, s': State)
    requires Step(c, s, action) == Some(s')
    ensures s.outcomes <= s'.outcomes && |s'.outcomes| <= |s.outcomes| + 1
  {
    hide EvictedTo;
  }

  /** An in-flight slot after a step was there before it, or is the marker this very step installed. */
  lemma MarkerComesFromReservation(c: Config, s: State, action: Action, s': State, k: Key)
    requires c.Valid() && Inv(c, s) && Step(c, s, action) == Some(s') && k in s'.shard && s'.shard[k].InFlight?
    ensures || (k in s.shard && s'.shard[k] == s.shard[k])
            || (exists now :: s'.outcomes == s.outcomes + [Reserved(k, now)] && s'.shard[k] == InFlight(now, c.ttl))
  {
    hide EvictedTo;
    if action.Swap? {
      var p := s.threads[action.thread];
      assert ThreadInv(c, s, p);
      if p.ReserveSwap? && p.seen == s.version {
        EvictedIsSubShard(s.shard - {p.key}, p.now, p.key.tenant, c.cap, p.evicted);
        if p.key == k {
          assert s'.outcomes == s.outcomes + [Reserved(k, p.now)];
        }
      }
    }
  }

  lemma StepKeepsOwned(c: Config, s: State, action: Action, s': State, k: Key)
    requires c.Valid() && Inv(c, s) && OwnedAt(c, s, k) && Step(c, s, action) == Some(s')
    ensures OwnedAt(c, s', k)
  {
    hide Step, Inv;
    if k in s'.shard && s'.shard[k].InFlight? {
      MarkerComesFromReservation(c, s, action, s', k);
      OutcomesGrowByOne(c, s, action, s');
      var last := |s'.outcomes| - 1;
      if last == |s.outcomes| && Reserves(s'.outcomes[last], k) {
        ReservedOnlyOverNothingLive(c, s, action, s', k, s'.outcomes[last].now);
        assert Latest(s'.outcomes, k, last);
      } else {
        var n: nat :| Latest(s.outcomes, k, n) && s.shard[k] == InFlight(s.outcomes[n].now, c.ttl);
        assert Latest(s'.outcomes, k, n);
      }
    }
  }

  /** In every reachable state an in-flight slot belongs to the latest reservation of its key. */
  lemma {:induction false} RunOwned(c: Config, states: seq<State>, actions: seq<Action>, i: nat, k: Key)
    requires c.Valid() && Run(c, states, actions) && i < |states|
    ensures OwnedAt(c, states[i], k)
  {
    if i > 0 {
      RunOwned(c, states, actions, i - 1, k);
      RunInv(c, states, actions, i - 1);
      assert StepAt(c, states, actions, i - 1);
      StepKeepsOwned(c, states[i - 1], actions[i - 1], states[i], k);
    }
  }

  /** A successful store promotes the latest reservation of its key. That is the reservation its caller
      made, the n-th outcome, exactly when no other one succeeded since. */
  lemma StorePromotesLatest(c: Config, states: seq<State>, actions: seq<Action>, i: nat, t: nat, n: nat)
      returns (promoted: nat)
    requires c.Valid() && Run(c, states, actions) && i < |states| && t < |states[i].threads|
    requires states[i].threads[t].StoreSwap? && states[i].threads[t].seen == states[i].version
    requires n < |states[i].outcomes| && Reserves(states[i].outcomes[n], states[i].threads[t].key)
    ensures var s, k := states[i], states[i].threads[t].key;
            && SwapNext(c, s, t).Some? && SwapNext(c, s, t).value.outcomes == s.outcomes + [StoreResult(k, true)]
            && Latest(s.outcomes, k, promoted)
            && k in s.shard && s.shard[k] == InFlight(s.outcomes[promoted].now, c.ttl)
            && (promoted == n <==> NoneSince(s.outcomes, k, n))
  {
    var s, k := states[i], states[i].threads[t].key;
    RunOwned(c, states, actions, i, k);
    RunInv(c, states, actions, i);
    assert ThreadInv(c, s, s.threads[t]);
    promoted :| Latest(s.outcomes, k, promoted) && s.shard[k] == InFlight(s.outcomes[promoted].now, c.ttl);
    assert Reserves(s.outcomes[n], k) && Reserves(s.outcomes[promoted], k);
  }

  /** A successful release removes the latest reservation of its key. That is the reservation its caller
      made, the n-th outcome, exactly when no other one succeeded since. */
  lemma ReleaseRemovesLatest(c: Config, states: seq<State>, actions: seq<Action>, i: nat, t: nat, n: nat)
      returns (removed: nat)
    requires c.Valid() && Run(c, states, actions) && i < |states| && t < |states[i].threads|
    requires states[i].threads[t].ReleaseSwap? && states[i].threads[t].seen == states[i].version
    requires n < |states[i].outcomes| && Reserves(states[i].outcomes[n], states[i].threads[t].key)
    ensures var s, k := states[i], states[i].threads[t].key;
            && SwapNext(c, s, t).Some? && SwapNext(c, s, t).value.shard == s.shard - {k}
            && Latest(s.outcomes, k, removed)
            && k in s.shard && s.shard[k] == InFlight(s.outcomes[removed].now, c.ttl)
            && (removed == n <==> NoneSince(s.outcomes, k, n))
  {
    var s, k := states[i], states[i].threads[t].key;
    RunOwned(c, states, actions, i, k);
    RunInv(c, states, actions, i);
    assert ThreadInv(c, s, s.threads[t]);
    removed :| Latest(s.outcomes, k, removed) && s.shard[k] == InFlight(s.outcomes[removed].now, c.ttl);
    assert Reserves(s.outcomes[n], k) && Reserves(s.outcomes[removed], k);
  }

  /** A holder keeps its reservation, and so stores and releases its own, over any stretch of a run with
      no store or release of the key and within the equal share, whatever the clock does, until a
      reservation reads a time past its expiry. */
  lemma {:induction false} LiveReservationIsKept(
    c: Config, states: seq<State>, actions: seq<Action>, i: nat, j: nat, k: Key, ts: set<TenantId>, n: nat)
    requires Window(c, states, actions, i, j, k, ts)
    requires states[i].shard[k].InFlight? && Latest(states[i].outcomes, k, n)
    ensures k in states[j].shard && states[j].shard[k] == states[i].shard[k] && Latest(states[j].outcomes, k, n)
    decreases j
  {
    hide Spares, WithinFloor, Step, Inv, ReadsBefore, Latest;
    FloodCannotTouchSlot(c, states, actions, i, j, k, ts);
    if i < j {
      FloodCannotTouchSlot(c, states, actions, i, j - 1, k, ts);
      LiveReservationIsKept(c, states, actions, i, j - 1, k, ts, n);
      RunInv(c, states, actions, j - 1);
      assert StepAt(c, states, actions, j - 1);
      StepKeepsLatest(c, states[j - 1], actions[j - 1], states[j], k, n);
    }
  }

  lemma StepKeepsLatest(c: Config, s: State, action: Action, s': State, k: Key, n: nat)
    requires Inv(c, s) && Step(c, s, action) == Some(s') && Latest(s.outcomes, k, n)
    requires k in s.shard && ReadsBefore(s, action, s.shard[k])
    ensures Latest(s'.outcomes, k, n)
  {
    hide Step, Inv;
    OutcomesGrowByOne(c, s, action, s');
    var last := |s'.outcomes| - 1;
    if last == |s.outcomes| && Reserves(s'.outcomes[last], k) {
      ReservedOnlyOverNothingLive(c, s, action, s', k, s'.outcomes[last].now);
    }
  }
}
