/** Every attempt reads the clock and the shard anew: what a successful reserve or store is based on was
    read in that very attempt, however many were lost before it. */
module IdempotencyReadings {
  import opened Prelude
  import opened CapacityPlan
  import opened IdempotencySpec
  import opened IdempotencyRuns

  /** Thread t stands at p in every state after m up to k. */
  ghost predicate StandsAt(states: seq<State>, t: nat, m: nat, k: nat, p: Thread)
    requires k < |states|
  {
    forall j :: m < j <= k ==> t < |states[j].threads| && states[j].threads[t] == p
  }

  /** The reading a thread about to load the shard works with. */
  function ReadingOf(p: Thread): nat
    requires p.Reserving? || p.Storing?
  {
    if p.Reserving? then p.now else p.response.createdAt
  }

  /** In state m the clock showed p's reading, and the thread has been about to load ever since. */
  ghost predicate ReadIn(states: seq<State>, t: nat, m: nat, k: nat, p: Thread)
    requires k < |states|
  {
    m < k && (p.Reserving? || p.Storing?) && states[m].clock == ReadingOf(p) && StandsAt(states, t, m, k, p)
  }

  /** Where a thread about to swap stood when it loaded the shard. */
  function BeforeLoad(p: Thread): Thread
    requires p.ReserveSwap? || p.StoreSwap?
  {
    if p.ReserveSwap? then Reserving(p.key, p.fingerprint, p.now) else Storing(p.key, p.response)
  }

  /** In state l the thread loaded the version it wants to replace, by a reading from state m. */
  ghost predicate LoadedIn(states: seq<State>, t: nat, m: nat, l: nat, k: nat, p: Thread)
    requires k < |states|
  {
    && l < k && (p.ReserveSwap? || p.StoreSwap?) && states[l].version == p.seen
    && ReadIn(states, t, m, l, BeforeLoad(p)) && StandsAt(states, t, l, k, p)
  }

  ghost predicate Based(states: seq<State>, t: nat, k: nat)
    requires k < |states|
  {
    t < |states[k].threads| ==>
      var p := states[k].threads[t];
      && (p.Reserving? || p.Storing? ==> exists m :: ReadIn(states, t, m, k, p))
      && (p.ReserveSwap? || p.StoreSwap? ==> exists m, l :: LoadedIn(states, t, m, l, k, p))
  }

  lemma BasedStays(states: seq<State>, t: nat, k: nat)
    requires k + 1 < |states| && Based(states, t, k)
    requires t < |states[k].threads| && t < |states[k + 1].threads| && states[k + 1].threads[t] == states[k].threads[t]
    ensures Based(states, t, k + 1)
  {
    var p := states[k].threads[t];
    if p.Reserving? || p.Storing? {
      var m :| ReadIn(states, t, m, k, p);
      assert ReadIn(states, t, m, k + 1, p);
    } else if p.ReserveSwap? || p.StoreSwap? {
      var m, l :| LoadedIn(states, t, m, l, k, p);
      assert LoadedIn(states, t, m, l, k + 1, p);
    }
  }

  /** A thread that is about to load after a step and was not before has just read the clock. */
  lemma ReadsNow(c: Config, states: seq<State>, actions: seq<Action>, t: nat, k: nat)
    requires |states| == |actions| + 1 && k < |actions| && StepAt(c, states, actions, k)
    requires t < |states[k].threads| && t < |states[k + 1].threads| && states[k + 1].threads[t] != states[k].threads[t]
    requires states[k + 1].threads[t].Reserving? || states[k + 1].threads[t].Storing?
    ensures ReadIn(states, t, k, k + 1, states[k + 1].threads[t])
  {
    hide EvictedTo;
  }

  lemma LoadsNow(c: Config, states: seq<State>, actions: seq<Action>, t: nat, k: nat)
    requires |states| == |actions| + 1 && k < |actions| && StepAt(c, states, actions, k)
    requires t < |states[k].threads| && t < |states[k + 1].threads| && states[k + 1].threads[t] != states[k].threads[t]
    requires states[k + 1].threads[t].ReserveSwap? || states[k + 1].threads[t].StoreSwap?
    ensures var p := states[k + 1].threads[t];
            BeforeLoad(p) == states[k].threads[t] && p.seen == states[k].version && StandsAt(states, t, k, k + 1, p)
  {
    hide EvictedTo;
  }

  lemma StepKeepsBased(c: Config, states: seq<State>, actions: seq<Action>, t: nat, k: nat)
    requires |states| == |actions| + 1 && k < |actions| && StepAt(c, states, actions, k) && Based(states, t, k)
    requires |states[k + 1].threads| == |states[k].threads|
    ensures Based(states, t, k + 1)
  {
    hide Step, ReadIn;
    if t < |states[k].threads| {
      var p := states[k + 1].threads[t];
      if p == states[k].threads[t] {
        BasedStays(states, t, k);
      } else if p.Reserving? || p.Storing? {
        ReadsNow(c, states, actions, t, k);
      } else if p.ReserveSwap? || p.StoreSwap? {
        LoadsNow(c, states, actions, t, k);
        var m :| ReadIn(states, t, m, k, BeforeLoad(p));
        assert LoadedIn(states, t, m, k, k + 1, p);
      }
    }
  }

  lemma {:induction false} RunIsBased(c: Config, states: seq<State>, actions: seq<Action>, t: nat, k: nat)
    requires c.Valid() && Run(c, states, actions) && k < |states|
    ensures Based(states, t, k)
  {
    hide Based, Step;
    if k == 0 {
      StartIsBased(c, states, actions, t);
    } else {
      RunIsBased(c, states, actions, t, k - 1);
      assert StepAt(c, states, actions, k - 1);
      ThreadsStay(c, states[k - 1], actions[k - 1], states[k]);
      StepKeepsBased(c, states, actions, t, k - 1);
    }
  }

  lemma StartIsBased(c: Config, states: seq<State>, actions: seq<Action>, t: nat)
    requires Run(c, states, actions)
    ensures Based(states, t, 0)
  {
  }

  lemma ThreadsStay(c: Config, s: State, action: Action, s': State)
    requires Step(c, s, action) == Some(s')
    ensures |s'.threads| == |s.threads|
    ensures (s'.version == s.version && s'.shard == s.shard) || s'.version == s.version + 1
  {
    hide EvictedTo;
  }

  /** A version is one snapshot. */
  lemma {:induction false} SameVersionSameShard(c: Config, states: seq<State>, actions: seq<Action>, l: nat, n: nat)
    requires Run(c, states, actions) && l <= n < |states|
    ensures states[l].version <= states[n].version
    ensures states[l].version == states[n].version ==> states[l].shard == states[n].shard
    decreases n
  {
    hide Step;
    if l < n {
      SameVersionSameShard(c, states, actions, l, n - 1);
      assert StepAt(c, states, actions, n - 1);
      ThreadsStay(c, states[n - 1], actions[n - 1], states[n]);
    }
  }

  /** What a swap that succeeds in state n is based on: the clock as it was in some state m and the shard as
      loaded in a later state l, both in this attempt (the thread did nothing else from m to l and from l
      to n), and the shard has not changed since. */
  lemma SuccessIsFresh(c: Config, states: seq<State>, actions: seq<Action>, t: nat, n: nat) returns (m: nat, l: nat)
    requires c.Valid() && Run(c, states, actions) && n < |states| && t < |states[n].threads|
    requires states[n].threads[t].ReserveSwap? || states[n].threads[t].StoreSwap?
    requires states[n].threads[t].seen == states[n].version
    ensures var p := states[n].threads[t];
            && m < l < n && states[m].clock == ReadingOf(BeforeLoad(p))
            && StandsAt(states, t, m, l, BeforeLoad(p)) && StandsAt(states, t, l, n, p)
            && states[l].shard == states[n].shard
  {
    var p := states[n].threads[t];
    RunIsBased(c, states, actions, t, n);
    var m0, l0 :| LoadedIn(states, t, m0, l0, n, p);
    m, l := m0, l0;
    SameVersionSameShard(c, states, actions, l, n);
  }

  /** A lost race is somebody else's success: the shard was published anew since this attempt loaded it. */
  lemma LostRaceIsProgress(c: Config, states: seq<State>, actions: seq<Action>, t: nat, n: nat) returns (l: nat)
    requires c.Valid() && Run(c, states, actions) && n < |states| && t < |states[n].threads|
    requires states[n].threads[t].ReserveSwap? || states[n].threads[t].StoreSwap?
    requires states[n].threads[t].seen != states[n].version
    ensures l < n && states[l].version == states[n].threads[t].seen < states[n].version
    ensures StandsAt(states, t, l, n, states[n].threads[t])
  {
    var p := states[n].threads[t];
    RunIsBased(c, states, actions, t, n);
    var m0, l0 :| LoadedIn(states, t, m0, l0, n, p);
    l := l0;
    SameVersionSameShard(c, states, actions, l, n);
  }

  /** How a load ends a call: the slot decides, and nothing is published. */
  ghost predicate LoadDecides(s: State, p: Thread, s': State) {
    && s'.shard == s.shard
    && match p
       case Reserving(key, fp, now) =>
         && key in s.shard && !Dead(s.shard[key], now)
         && s'.outcomes == s.outcomes + [
              if s.shard[key].InFlight? then Conflict(key)
              else if s.shard[key].response.fingerprint == fp then Replayed(key, fp, now, s.shard[key].response)
              else Mismatch(key)]
       case Storing(key, _) =>
         (key in s.shard ==> s.shard[key].Stored?) && s'.outcomes == s.outcomes + [StoreResult(key, false)]
       case Releasing(key) => (key in s.shard ==> s.shard[key].Stored?) && s'.outcomes == s.outcomes
       case _ => false
  }

  /** How a swap ends a call: it was still current, and its change is in the shard. */
  ghost predicate SwapDecides(c: Config, s: State, p: Thread, s': State) {
    match p
    case ReserveSwap(key, _, now, seen, _) =>
      && seen == s.version && key in s'.shard && s'.shard[key] == InFlight(now, c.ttl)
      && s'.outcomes == s.outcomes + [Reserved(key, now)]
    case StoreSwap(key, r, seen) =>
      && seen == s.version && key in s.shard && s.shard[key].InFlight? && s'.shard == s.shard[key := Stored(r)]
      && s'.outcomes == s.outcomes + [StoreResult(key, true)]
    case ReleaseSwap(key, seen) =>
      && seen == s.version && key in s.shard && s.shard[key].InFlight? && s'.shard == s.shard - {key}
      && s'.outcomes == s.outcomes
    case _ => false
  }

  /** No call ends on a lost race: it ends when a load finds its answer in the slot, or a swap goes through. */
  lemma CallsEndDecided(c: Config, s: State, action: Action, s': State, t: nat)
    requires Inv(c, s) && Step(c, s, action) == Some(s')
    requires t < |s.threads| == |s'.threads| && !s.threads[t].Idle? && s'.threads[t].Idle?
    ensures LoadDecides(s, s.threads[t], s') || SwapDecides(c, s, s.threads[t], s')
  {
    hide EvictedTo, Dead;
    var p := s.threads[t];
    assert ThreadInv(c, s, p);
    if p.Reserving? && p.key in s.shard {
      ExpiredIsDead(s.shard[p.key], p.now);
    }
    match action {
      case Load(u, evicted) => LoadFrame(c, s, u, evicted, s');
      case Swap(u) => SwapFrame(c, s, u, s');
      case _ =>
    }
  }
}
