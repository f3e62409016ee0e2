/** One shard of the idempotency store under concurrent `reserve`, `store` and `release`: every
    operation is a clock read, a load and a compare-and-swap, interleaved in any way. Shards are
    independent, since a key always hashes to the same one. */
module IdempotencyRuns {
  import opened Prelude
  import opened CapacityPlan
  import opened IdempotencySpec

  datatype Config = Config(cap: nat, ttl: nat) {
    predicate Valid() { cap >= 1 }
  }

  datatype Thread =
    | Idle
    | Reserving(key: Key, fingerprint: seq<Byte>, now: nat)              // clock read, load next
    | ReserveSwap(key: Key, fingerprint: seq<Byte>, now: nat, seen: nat, evicted: Shard)
    | Storing(key: Key, response: Response)                              // clock read, load next
    | StoreSwap(key: Key, response: Response, seen: nat)
    | Releasing(key: Key)
    | ReleaseSwap(key: Key, seen: nat)

  datatype Outcome =
    | Reserved(key: Key, now: nat)
    | Replayed(key: Key, fingerprint: seq<Byte>, now: nat, response: Response)
    | Mismatch(key: Key)
    | Conflict(key: Key)
    | StoreResult(key: Key, ok: bool)

  /** `version` identifies the shard snapshot (compare-and-swap is on identity); `promoted` and
      `outcomes` are histories of what `store` installed and what calls returned. */
  datatype State = State(clock: nat, shard: Shard, version: nat, threads: seq<Thread>,
                         promoted: set<(Key, Response)>, outcomes: seq<Outcome>)

  datatype Action =
    | Tick(to: nat)                       // the wall clock may also step back
    | StartReserve(thread: nat, key: Key, fingerprint: seq<Byte>)
    | StartStore(thread: nat, key: Key, response: Response)
    | StartRelease(thread: nat, key: Key)
    | Load(thread: nat, evicted: Shard)   // `evicted`: what `evict_if_needed` leaves, tie order being the map's
    | Swap(thread: nat)

  function To(s: State, t: nat, p: Thread): State
    requires t < |s.threads|
  {
    s.(threads := s.threads[t := p])
  }

  function Returns(s: State, t: nat, o: Outcome): State
    requires t < |s.threads|
  {
    s.(threads := s.threads[t := Idle], outcomes := s.outcomes + [o])
  }

  ghost function LoadNext(c: Config, s: State, t: nat, evicted: Shard): Option<State>
    requires t < |s.threads|
  {
    match s.threads[t]
    case Reserving(key, fp, now) =>
      if key in s.shard && !s.shard[key].Expired(now) then
        match s.shard[key]
        case Stored(r) =>
          Some(Returns(s, t, if r.fingerprint == fp then Replayed(key, fp, now, r) else Mismatch(key)))
        case InFlight(_, _) => Some(Returns(s, t, Conflict(key)))
      else if EvictedTo(s.shard - {key}, now, key.tenant, c.cap, evicted) then
        Some(To(s, t, ReserveSwap(key, fp, now, s.version, evicted)))
      else
        None
    case Storing(key, r) =>
      if key in s.shard && s.shard[key].InFlight? then Some(To(s, t, StoreSwap(key, r, s.version)))
      else Some(Returns(s, t, StoreResult(key, false)))
    case Releasing(key) =>
      if key in s.shard && s.shard[key].InFlight? then Some(To(s, t, ReleaseSwap(key, s.version)))
      else Some(To(s, t, Idle))
    case _ => None
  }

  function SwapNext(c: Config, s: State, t: nat): Option<State>
    requires t < |s.threads|
  {
    match s.threads[t]
    case ReserveSwap(key, fp, now, seen, evicted) =>
      if seen == s.version then
        Some(Returns(s.(shard := evicted[key := InFlight(now, c.ttl)], version := s.version + 1),
                     t, Reserved(key, now)))
      else
        Some(To(s, t, Reserving(key, fp, s.clock)))
    case StoreSwap(key, r, seen) =>
      if seen == s.version then
        Some(Returns(s.(shard := s.shard[key := Stored(r)], version := s.version + 1,
                        promoted := s.promoted + {(key, r)}),
                     t, StoreResult(key, true)))
      else
        Some(To(s, t, Storing(key, r.(createdAt := s.clock))))
    case ReleaseSwap(key, seen) =>
      if seen == s.version then
        Some(To(s.(shard := s.shard - {key}, version := s.version + 1), t, Idle))
      else
        Some(To(s, t, Releasing(key)))
    case _ => None
  }

  ghost function Step(c: Config, s: State, action: Action): Option<State> {
    match action
    case Tick(to) => Some(s.(clock := to))
    case StartReserve(t, key, fp) =>
      if t < |s.threads| && s.threads[t].Idle? then Some(To(s, t, Reserving(key, fp, s.clock))) else None
    case StartStore(t, key, r) =>
      if t < |s.threads| && s.threads[t].Idle? then
        if |r.body| > MAX_BODY_BYTES then
            Some(To(s.(outcomes := s.outcomes + [StoreResult(key, false)]), t, Releasing(key)))
        else Some(To(s, t, Storing(key, r.(createdAt := s.clock, ttl := c.ttl))))
      else None
    case StartRelease(t, key) =>
      if t < |s.threads| && s.threads[t].Idle? then Some(To(s, t, Releasing(key))) else None
    case Load(t, evicted) => if t < |s.threads| then LoadNext(c, s, t, evicted) else None
    case Swap(t) => if t < |s.threads| then SwapNext(c, s, t) else None
  }

  function Init(clock: nat, threadCount: nat): State {
    State(clock, map[], 0, seq(threadCount, t => Idle), {}, [])
  }

  // --- Invariant -------------------------------------------------------------------------------

  /** A pending swap whose version is still current was computed from the current shard. */
  ghost predicate ThreadInv(c: Config, s: State, p: Thread) {
    match p
    case ReserveSwap(key, _, now, seen, evicted) =>
      && seen <= s.version
      && (seen == s.version ==>
            && (key in s.shard ==> s.shard[key].Expired(now))
            && EvictedTo(s.shard - {key}, now, key.tenant, c.cap, evicted))
    case StoreSwap(key, _, seen) =>
      seen <= s.version && (seen == s.version ==> key in s.shard && s.shard[key].InFlight?)
    case ReleaseSwap(key, seen) =>
      seen <= s.version && (seen == s.version ==> key in s.shard && s.shard[key].InFlight?)
    case _ => true
  }

  /** A replayed response was promoted under the very key asked for, matches the fingerprint asked
      for, and had not expired when the asker read the clock. */
  ghost predicate OutcomeInv(promoted: set<(Key, Response)>, o: Outcome) {
    o.Replayed? ==>
      && (o.key, o.response) in promoted && o.response.fingerprint == o.fingerprint
      && o.now < SatAdd(o.response.createdAt, o.response.ttl)
  }

  ghost predicate Inv(c: Config, s: State) {
    && |s.shard| <= c.cap
    && (forall t :: 0 <= t < |s.threads| ==> ThreadInv(c, s, s.threads[t]))
    && (forall k :: k in s.shard && s.shard[k].Stored? ==> (k, s.shard[k].response) in s.promoted)
    && (forall n :: 0 <= n < |s.outcomes| ==> OutcomeInv(s.promoted, s.outcomes[n]))
  }

  lemma SwapKeepsShard(c: Config, s: State, t: nat, s': State)
    requires c.Valid() && Inv(c, s) && t < |s.threads| && SwapNext(c, s, t) == Some(s')
    ensures |s'.shard| <= c.cap
    ensures forall k :: k in s'.shard && s'.shard[k].Stored? ==> (k, s'.shard[k].response) in s'.promoted
  {
    var p := s.threads[t];
    assert ThreadInv(c, s, p);
    if p.ReserveSwap? && p.seen == s.version {
      EvictedIsSubShard(s.shard - {p.key}, p.now, p.key.tenant, c.cap, p.evicted);
      SizeAfterPut(p.evicted, p.key, InFlight(p.now, c.ttl));
    } else if p.StoreSwap? {
      SizeAfterPut(s.shard, p.key, Stored(p.response));
    } else if p.ReleaseSwap? {
      SizeAfterRemoval(s.shard, p.key);
    }
  }

  /** A published snapshot only outdates pending swaps. */
  lemma ThreadInvStays(c: Config, s: State, s': State, p: Thread)
    requires ThreadInv(c, s, p)
    requires (s'.version == s.version && s'.shard == s.shard) || s'.version == s.version + 1
    ensures ThreadInv(c, s', p)
  {
  }

  lemma LoadKeepsOwnThread(c: Config, s: State, t: nat, evicted: Shard, s': State)
    requires t < |s.threads| && ThreadInv(c, s, s.threads[t]) && LoadNext(c, s, t, evicted) == Some(s')
    ensures |s'.threads| == |s.threads| && ThreadInv(c, s', s'.threads[t])
  {
    hide EvictedTo;
  }

  lemma LoadFrame(c: Config, s: State, t: nat, evicted: Shard, s': State)
    requires t < |s.threads| && LoadNext(c, s, t, evicted) == Some(s')
    ensures |s'.threads| == |s.threads| && s'.threads == s.threads[t := s'.threads[t]]
    ensures s'.clock == s.clock && s'.version == s.version && s'.shard == s.shard && s'.promoted == s.promoted
  {
    hide EvictedTo;
  }

  lemma SwapKeepsOwnThread(c: Config, s: State, t: nat, s': State)
    requires t < |s.threads| && ThreadInv(c, s, s.threads[t]) && SwapNext(c, s, t) == Some(s')
    ensures |s'.threads| == |s.threads| && ThreadInv(c, s', s'.threads[t])
  {
    hide EvictedTo;
  }

  lemma SwapFrame(c: Config, s: State, t: nat, s': State)
    requires t < |s.threads| && SwapNext(c, s, t) == Some(s')
    ensures |s'.threads| == |s.threads| && s'.threads == s.threads[t := s'.threads[t]]
    ensures s'.clock == s.clock && ((s'.version == s.version && s'.shard == s.shard) || s'.version == s.version + 1)
  {
    hide EvictedTo;
  }

  lemma StartKeepsThread(c: Config, s: State, action: Action, s': State, u: nat)
    requires !action.Load? && !action.Swap? && Step(c, s, action) == Some(s') && u < |s.threads|
    ensures |s'.threads| == |s.threads| && (s'.threads[u] == s.threads[u] || ThreadInv(c, s', s'.threads[u]))
  {
    hide EvictedTo;
  }

  lemma StepKeepsThreads(c: Config, s: State, action: Action, s': State, u: nat)
    requires Inv(c, s) && Step(c, s, action) == Some(s') && u < |s.threads|
    ensures |s'.threads| == |s.threads| && ThreadInv(c, s', s'.threads[u])
  {
    hide EvictedTo, LoadNext, SwapNext, ThreadInv;
    assert ThreadInv(c, s, s.threads[u]);
    match action {
      case Load(t, evicted) =>
        LoadFrame(c, s, t, evicted, s');
        if u == t { LoadKeepsOwnThread(c, s, t, evicted, s'); } else { ThreadInvStays(c, s, s', s.threads[u]); }
      case Swap(t) =>
        SwapFrame(c, s, t, s');
        if u == t { SwapKeepsOwnThread(c, s, t, s'); } else { ThreadInvStays(c, s, s', s.threads[u]); }
      case _ =>
        ThreadInvStays(c, s, s', s.threads[u]);
        StartKeepsThread(c, s, action, s', u);
    }
  }

  lemma LoadKeepsOutcomes(c: Config, s: State, t: nat, evicted: Shard, s': State)
    requires t < |s.threads| && LoadNext(c, s, t, evicted) == Some(s')
    requires forall k :: k in s.shard && s.shard[k].Stored? ==> (k, s.shard[k].response) in s.promoted
    ensures s'.outcomes == s.outcomes || exists o :: s'.outcomes == s.outcomes + [o] && OutcomeInv(s.promoted, o)
  {
  }

  lemma SwapKeepsOutcomes(c: Config, s: State, t: nat, s': State)
    requires Inv(c, s) && t < |s.threads| && SwapNext(c, s, t) == Some(s')
    ensures forall n :: 0 <= n < |s'.outcomes| ==> OutcomeInv(s'.promoted, s'.outcomes[n])
  {
  }

  lemma StepKeepsInv(c: Config, s: State, action: Action, s': State)
    requires c.Valid() && Inv(c, s) && Step(c, s, action) == Some(s')
    ensures Inv(c, s')
  {
    assert |s'.threads| == |s.threads|;
    forall t | 0 <= t < |s'.threads| ensures ThreadInv(c, s', s'.threads[t]) {
      StepKeepsThreads(c, s, action, s', t);
    }
    match action {
      case Load(t, evicted) =>
        LoadFrame(c, s, t, evicted, s');
        LoadKeepsOutcomes(c, s, t, evicted, s');
      case Swap(t) =>
        SwapKeepsShard(c, s, t, s');
        SwapKeepsOutcomes(c, s, t, s');
      case _ =>
    }
  }

  ghost predicate StepAt(c: Config, states: seq<State>, actions: seq<Action>, k: nat)
    requires |states| == |actions| + 1 && k < |actions|
  {
    Step(c, states[k], actions[k]) == Some(states[k + 1])
  }

  ghost predicate Run(c: Config, states: seq<State>, actions: seq<Action>) {
    && |states| == |actions| + 1
    && (exists clock, threadCount :: states[0] == Init(clock, threadCount))
    && forall k :: 0 <= k < |actions| ==> StepAt(c, states, actions, k)
  }

  /** In every reachable state the shard is within its cap and every replay so far was of a response
      stored under the same tenant, key and fingerprint, within its TTL. */
  lemma {:induction false} RunInv(c: Config, states: seq<State>, actions: seq<Action>, k: nat)
    requires c.Valid() && Run(c, states, actions) && k < |states|
    ensures Inv(c, states[k])
  {
    if k > 0 {
      RunInv(c, states, actions, k - 1);
      assert StepAt(c, states, actions, k - 1);
      StepKeepsInv(c, states[k - 1], actions[k - 1], states[k]);
    }
  }

  // --- Mutual exclusion ------------------------------------------------------------------------

  lemma LoadReservesNothing(c: Config, s: State, t: nat, evicted: Shard, s': State)
    requires t < |s.threads| && LoadNext(c, s, t, evicted) == Some(s') && |s'.outcomes| == |s.outcomes| + 1
    ensures !s'.outcomes[|s.outcomes|].Reserved?
  {
    hide EvictedTo;
  }

  /** `reserve` only ever succeeds where no live slot is, neither an in-flight marker nor a stored
      response, as of the clock reading it made for this attempt. */
  lemma ReservedOnlyOverNothingLive(c: Config, s: State, action: Action, s': State, key: Key, now: nat)
    requires Inv(c, s) && Step(c, s, action) == Some(s') && s'.outcomes == s.outcomes + [Reserved(key, now)]
    ensures !Live(s.shard, key, now)
    ensures key in s'.shard && s'.shard[key] == InFlight(now, c.ttl)
    ensures action.Swap? && action.thread < |s.threads|
    ensures s.threads[action.thread].ReserveSwap? && s.threads[action.thread].now == now
    ensures s.threads[action.thread].seen == s.version
  {
    hide EvictedTo;
    assert s'.outcomes[|s.outcomes|] == Reserved(key, now);
    assert !action.Load? by {
      if action.Load? { LoadReservesNothing(c, s, action.thread, action.evicted, s'); }
    }
    assert action.Swap?;
    assert ThreadInv(c, s, s.threads[action.thread]);
  }

  /** When that is exclusive by the clock: a reservation takes over a slot that is still live by the clock
      exactly if the slot expires after the clock and no later than the reservation's reading. With a
      reading not ahead of the clock it never does. */
  lemma ExclusiveByTheClock(c: Config, s: State, action: Action, s': State, key: Key, now: nat)
    requires Inv(c, s) && Step(c, s, action) == Some(s') && s'.outcomes == s.outcomes + [Reserved(key, now)]
    ensures Live(s.shard, key, s.clock) <==>
            key in s.shard && s.clock < SatAdd(s.shard[key].Created(), s.shard[key].Lifetime()) <= now
    ensures now <= s.clock ==> !Live(s.shard, key, s.clock)
  {
    hide Step, Inv;
    ReservedOnlyOverNothingLive(c, s, action, s', key, now);
  }

  /** How a slot can change in one step: a store or a release of its key, its own reclaim once expired,
      or another key's reservation sweeping it when expired or evicting it fairly. */
  lemma SlotChanges(c: Config, s: State, action: Action, s': State, k: Key)
    requires Inv(c, s) && Step(c, s, action) == Some(s') && k in s.shard
    requires !(k in s'.shard && s'.shard[k] == s.shard[k])
    ensures action.Swap? && action.thread < |s.threads|
    ensures var p := s.threads[action.thread];
            || (p.StoreSwap? && p.key == k && s.shard[k].InFlight? && k in s'.shard
                && s'.shard[k] == Stored(p.response))
            || (p.ReleaseSwap? && p.key == k && s.shard[k].InFlight? && k !in s'.shard)
            || (p.ReserveSwap? && s.shard[k].Expired(p.now))
            || (p.ReserveSwap? && p.key != k && k !in s'.shard
                && FairTo(Unexpired(s.shard - {p.key}, p.now), p.evicted, p.key.tenant) && |p.evicted| == c.cap - 1)
  {
    assert ThreadInv(c, s, s.threads[action.thread]);
  }

  // --- The clock -------------------------------------------------------------------------------

  /** No thread acts on a clock reading ahead of the clock. */
  ghost predicate ReadsBehind(s: State) {
    forall t :: 0 <= t < |s.threads| && (s.threads[t].Reserving? || s.threads[t].ReserveSwap?) ==>
      s.threads[t].now <= s.clock
  }

  predicate Forward(s: State, action: Action) { action.Tick? ==> s.clock <= action.to }

  lemma StepKeepsReads(c: Config, s: State, action: Action, s': State)
    requires ReadsBehind(s) && Forward(s, action) && Step(c, s, action) == Some(s')
    ensures ReadsBehind(s') && s.clock <= s'.clock
  {
    hide EvictedTo;
    match action {
      case Load(t, evicted) => LoadFrame(c, s, t, evicted, s');
      case Swap(t) => SwapFrame(c, s, t, s');
      case _ =>
    }
  }

  /** The clock never steps back along the run. The source reads the system's wall clock, which does
      not promise this; what needs it says so. */
  ghost predicate Monotone(states: seq<State>, actions: seq<Action>)
    requires |states| == |actions| + 1
  {
    forall k :: 0 <= k < |actions| ==> Forward(states[k], actions[k])
  }

  lemma {:induction false} RunReads(c: Config, states: seq<State>, actions: seq<Action>, k: nat)
    requires Run(c, states, actions) && Monotone(states, actions) && k < |states|
    ensures ReadsBehind(states[k])
  {
    if k > 0 {
      RunReads(c, states, actions, k - 1);
      assert StepAt(c, states, actions, k - 1) && Forward(states[k - 1], actions[k - 1]);
      StepKeepsReads(c, states[k - 1], actions[k - 1], states[k]);
    }
  }

  lemma {:induction false} ClockGrows(c: Config, states: seq<State>, actions: seq<Action>, i: nat, j: nat)
    requires Run(c, states, actions) && Monotone(states, actions) && i <= j < |states|
    ensures states[i].clock <= states[j].clock
    decreases j
  {
    if i < j {
      ClockGrows(c, states, actions, i, j - 1);
      RunReads(c, states, actions, j - 1);
      assert StepAt(c, states, actions, j - 1) && Forward(states[j - 1], actions[j - 1]);
      StepKeepsReads(c, states[j - 1], actions[j - 1], states[j]);
    }
  }

  /** Along a run whose clock never steps back, reservations are exclusive by the clock. */
  lemma MonotoneRunsAreExclusive(c: Config, states: seq<State>, actions: seq<Action>, k: nat, key: Key, now: nat)
    requires c.Valid() && Run(c, states, actions) && Monotone(states, actions) && k < |actions|
    requires states[k + 1].outcomes == states[k].outcomes + [Reserved(key, now)]
    ensures !Live(states[k].shard, key, states[k].clock)
  {
    RunInv(c, states, actions, k);
    RunReads(c, states, actions, k);
    assert StepAt(c, states, actions, k);
    ReservedOnlyOverNothingLive(c, states[k], actions[k], states[k + 1], key, now);
    ExclusiveByTheClock(c, states[k], actions[k], states[k + 1], key, now);
  }
}
