/** Whole calls: an operation that no other thread interrupts, as a stretch of a run. What it does to
    the shard is what the store's own methods promise, and runs can be put together from such calls. */
module IdempotencyCalls {
  import opened Prelude
  import opened IdempotencySpec
  import opened IdempotencyRuns
  import S = IdempotencyStore

  /** A run and the state it has reached. */
  datatype Trace = Trace(states: seq<State>, actions: seq<Action>) {
    function Last(): State
      requires |states| > 0
    {
      states[|states| - 1]
    }

    /** The run is one of the system's, and is now in state s. */
    ghost predicate At(c: Config, s: State) { |states| > 0 && Run(c, states, actions) && Last() == s }
  }

  function Beginning(clock: nat, threadCount: nat): Trace { Trace([Init(clock, threadCount)], []) }

  lemma BeginningRuns(c: Config, clock: nat, threadCount: nat)
    ensures Beginning(clock, threadCount).At(c, Init(clock, threadCount))
  {
  }

  function Then(tr: Trace, action: Action, s': State): Trace { Trace(tr.states + [s'], tr.actions + [action]) }

  lemma StepExtends(c: Config, tr: Trace, s: State, action: Action, s': State)
    requires tr.At(c, s) && Step(c, s, action) == Some(s')
    ensures Then(tr, action, s').At(c, s')
  {
    hide Step;
    var next := Then(tr, action, s');
    forall k | 0 <= k < |next.actions| ensures StepAt(c, next.states, next.actions, k) {
      if k < |tr.actions| {
        assert StepAt(c, tr.states, tr.actions, k);
      }
    }
    assert next.states[0] == tr.states[0];
  }

  ghost predicate IdleAt(s: State, t: nat) { t < |s.threads| && s.threads[t].Idle? }

  lemma BackToIdle(s: State, t: nat, p: Thread, q: Thread)
    requires IdleAt(s, t)
    ensures s.threads[t := p][t := q][t := Idle] == s.threads && s.threads[t := p][t := Idle] == s.threads
  {
  }

  // --- What a whole call makes of a state ------------------------------------------------------

  function Answered(s: State, o: Outcome): State { s.(outcomes := s.outcomes + [o]) }

  function AfterReserve(c: Config, s: State, key: Key, kept: Shard): State {
    Answered(s.(shard := kept[key := InFlight(s.clock, c.ttl)], version := s.version + 1), Reserved(key, s.clock))
  }

  function AfterStore(c: Config, s: State, key: Key, r: Response): State {
    var stamped := r.(createdAt := s.clock, ttl := c.ttl);
    Answered(s.(shard := s.shard[key := Stored(stamped)], version := s.version + 1,
                promoted := s.promoted + {(key, stamped)}), StoreResult(key, true))
  }

  function AfterRelease(s: State, key: Key): State {
    s.(shard := s.shard - {key}, version := s.version + 1)
  }

  /** How the history records a verdict. */
  function Told(v: S.Verdict, key: Key, fp: seq<Byte>, now: nat): Outcome {
    match v
    case Reserved => Outcome.Reserved(key, now)
    case Replay(r) => Replayed(key, fp, now, r)
    case FingerprintMismatch => Mismatch(key)
    case Conflict => Outcome.Conflict(key)
  }

  // --- Whole calls -----------------------------------------------------------------------------

  lemma ClockMoves(c: Config, tr: Trace, s: State, to: nat) returns (tr': Trace)
    requires tr.At(c, s)
    ensures tr'.At(c, s.(clock := to))
  {
    StepExtends(c, tr, s, Tick(to), s.(clock := to));
    tr' := Then(tr, Tick(to), s.(clock := to));
  }

  /** `reserve` where no live slot is publishes exactly what the store's `Reserve` does. */
  lemma WholeReserve(c: Config, tr: Trace, s: State, t: nat, key: Key, fp: seq<Byte>, kept: Shard)
      returns (tr': Trace)
    requires tr.At(c, s) && IdleAt(s, t) && !Live(s.shard, key, s.clock)
    requires EvictedTo(s.shard - {key}, s.clock, key.tenant, c.cap, kept)
    ensures tr'.At(c, AfterReserve(c, s, key, kept)) && tr.states <= tr'.states
    ensures Reclaimed(s.shard, key, s.clock, c.cap, c.ttl, AfterReserve(c, s, key, kept).shard)
  {
    hide EvictedTo;
    var s1 := To(s, t, Reserving(key, fp, s.clock));
    var s2 := To(s1, t, ReserveSwap(key, fp, s.clock, s.version, kept));
    StepExtends(c, tr, s, StartReserve(t, key, fp), s1);
    tr' := Then(tr, StartReserve(t, key, fp), s1);
    StepExtends(c, tr', s1, Load(t, kept), s2);
    tr' := Then(tr', Load(t, kept), s2);
    BackToIdle(s, t, s1.threads[t], s2.threads[t]);
    StepExtends(c, tr', s2, Swap(t), AfterReserve(c, s, key, kept));
    tr' := Then(tr', Swap(t), AfterReserve(c, s, key, kept));
  }

  /** `reserve` on a live slot changes nothing and reports it. */
  lemma WholeRefusedReserve(c: Config, tr: Trace, s: State, t: nat, key: Key, fp: seq<Byte>) returns (tr': Trace)
    requires tr.At(c, s) && IdleAt(s, t) && Live(s.shard, key, s.clock)
    ensures tr'.At(c, Answered(s, Told(S.VerdictOn(s.shard[key], fp), key, fp, s.clock)))
  {
    hide EvictedTo;
    var s1 := To(s, t, Reserving(key, fp, s.clock));
    var s2 := Answered(s, Told(S.VerdictOn(s.shard[key], fp), key, fp, s.clock));
    StepExtends(c, tr, s, StartReserve(t, key, fp), s1);
    tr' := Then(tr, StartReserve(t, key, fp), s1);
    BackToIdle(s, t, s1.threads[t], Idle);
    StepExtends(c, tr', s1, Load(t, map[]), s2);
    tr' := Then(tr', Load(t, map[]), s2);
  }

  /** `store` on an in-flight slot. */
  lemma WholeStore(c: Config, tr: Trace, s: State, t: nat, key: Key, r: Response) returns (tr': Trace)
    requires tr.At(c, s) && IdleAt(s, t) && |r.body| <= MAX_BODY_BYTES
    requires key in s.shard && s.shard[key].InFlight?
    ensures tr'.At(c, AfterStore(c, s, key, r))
  {
    hide EvictedTo;
    var stamped := r.(createdAt := s.clock, ttl := c.ttl);
    var s1 := To(s, t, Storing(key, stamped));
    var s2 := To(s1, t, StoreSwap(key, stamped, s.version));
    StepExtends(c, tr, s, StartStore(t, key, r), s1);
    tr' := Then(tr, StartStore(t, key, r), s1);
    StepExtends(c, tr', s1, Load(t, map[]), s2);
    tr' := Then(tr', Load(t, map[]), s2);
    BackToIdle(s, t, s1.threads[t], s2.threads[t]);
    StepExtends(c, tr', s2, Swap(t), AfterStore(c, s, key, r));
    tr' := Then(tr', Swap(t), AfterStore(c, s, key, r));
  }

  /** `store` of a body above 256 KiB gives the reservation up, so that a retry runs again. */
  lemma WholeOversizeStore(c: Config, tr: Trace, s: State, t: nat, key: Key, r: Response) returns (tr': Trace)
    requires tr.At(c, s) && IdleAt(s, t) && |r.body| > 262_144
    requires key in s.shard && s.shard[key].InFlight?
    ensures tr'.At(c, AfterRelease(Answered(s, StoreResult(key, false)), key))
  {
    hide EvictedTo;
    var s0 := Answered(s, StoreResult(key, false));
    var s1 := To(s0, t, Releasing(key));
    var s2 := To(s1, t, ReleaseSwap(key, s.version));
    StepExtends(c, tr, s, StartStore(t, key, r), s1);
    tr' := Then(tr, StartStore(t, key, r), s1);
    StepExtends(c, tr', s1, Load(t, map[]), s2);
    tr' := Then(tr', Load(t, map[]), s2);
    BackToIdle(s0, t, s1.threads[t], s2.threads[t]);
    StepExtends(c, tr', s2, Swap(t), AfterRelease(s0, key));
    tr' := Then(tr', Swap(t), AfterRelease(s0, key));
  }

  /** `store` where no slot is in flight is refused. */
  lemma WholeRefusedStore(c: Config, tr: Trace, s: State, t: nat, key: Key, r: Response) returns (tr': Trace)
    requires tr.At(c, s) && IdleAt(s, t) && |r.body| <= MAX_BODY_BYTES
    requires key in s.shard ==> s.shard[key].Stored?
    ensures tr'.At(c, Answered(s, StoreResult(key, false)))
  {
    hide EvictedTo;
    var s1 := To(s, t, Storing(key, r.(createdAt := s.clock, ttl := c.ttl)));
    StepExtends(c, tr, s, StartStore(t, key, r), s1);
    tr' := Then(tr, StartStore(t, key, r), s1);
    BackToIdle(s, t, s1.threads[t], Idle);
    StepExtends(c, tr', s1, Load(t, map[]), Answered(s, StoreResult(key, false)));
    tr' := Then(tr', Load(t, map[]), Answered(s, StoreResult(key, false)));
  }

  /** `release` of an in-flight slot. */
  lemma WholeRelease(c: Config, tr: Trace, s: State, t: nat, key: Key) returns (tr': Trace)
    requires tr.At(c, s) && IdleAt(s, t) && key in s.shard && s.shard[key].InFlight?
    ensures tr'.At(c, AfterRelease(s, key)) && tr.states <= tr'.states
  {
    hide EvictedTo;
    var s1, s2 := To(s, t, Releasing(key)), To(To(s, t, Releasing(key)), t, ReleaseSwap(key, s.version));
    StepExtends(c, tr, s, StartRelease(t, key), s1);
    tr' := Then(tr, StartRelease(t, key), s1);
    StepExtends(c, tr', s1, Load(t, map[]), s2);
    tr' := Then(tr', Load(t, map[]), s2);
    BackToIdle(s, t, s1.threads[t], s2.threads[t]);
    StepExtends(c, tr', s2, Swap(t), AfterRelease(s, key));
    tr' := Then(tr', Swap(t), AfterRelease(s, key));
  }
}
