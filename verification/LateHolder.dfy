/** Concrete runs of one shard in which a reservation is not safe with its holder: a late `store`, a
    late `release`, and a clock that steps back. */
module LateHolder {
  import opened Prelude
  import opened IdempotencySpec
  import opened IdempotencyRuns
  import opened IdempotencyCalls

  const NOTHING: Shard := map[]

  /** Any configuration with a lifetime that is neither zero nor the top of u64. */
  predicate Usual(c: Config) { c.Valid() && 1 <= c.ttl < U64_MAX }

  function Marker(c: Config, k: Key, at: nat): Shard { map[k := InFlight(at, c.ttl)] }

  lemma NothingToEvict(c: Config, m: Shard, k: Key, now: nat)
    requires m.Keys <= {k} && c.Valid()
    ensures m - {k} == NOTHING && EvictedTo(m - {k}, now, k.tenant, c.cap, NOTHING)
    ensures NOTHING[k := InFlight(now, c.ttl)] == Marker(c, k, now)
  {
  }

  const IDLE := [Idle, Idle]

  /** One lifetime after thread 0 reserved the key, thread 1 reclaimed it. */
  function TwoHolders(c: Config, k: Key): State {
    State(c.ttl, Marker(c, k, c.ttl), 2, IDLE, {}, [Reserved(k, 0), Reserved(k, c.ttl)])
  }

  lemma ReachTwoHolders(c: Config, k: Key, a: seq<Byte>, b: seq<Byte>) returns (tr: Trace)
    requires Usual(c)
    ensures tr.At(c, TwoHolders(c, k))
  {
    hide EvictedTo, Run;
    BeginningRuns(c, 0, 2);
    var s := Init(0, 2);
    assert s.threads == IDLE;
    NothingToEvict(c, s.shard, k, 0);
    tr := WholeReserve(c, Beginning(0, 2), s, 0, k, a, NOTHING);
    s := AfterReserve(c, s, k, NOTHING);
    tr := ClockMoves(c, tr, s, c.ttl);
    s := s.(clock := c.ttl);
    NothingToEvict(c, s.shard, k, c.ttl);
    tr := WholeReserve(c, tr, s, 1, k, b, NOTHING);
    assert AfterReserve(c, s, k, NOTHING) == TwoHolders(c, k);
  }

  /** `store` checks that the slot is in flight, not whose reservation it is. A holder that outlives its
      lifetime promotes the next holder's reservation with its own response; the next holder's own
      store is then refused, and its retry is told the fingerprint differs. */
  lemma LateStoreTakesOverReservation(c: Config, k: Key, first: Response, second: Response) returns (tr: Trace)
    requires Usual(c) && first.fingerprint != second.fingerprint
    requires |first.body| <= MAX_BODY_BYTES && |second.body| <= MAX_BODY_BYTES
    ensures Run(c, tr.states, tr.actions)
    ensures tr.Last().outcomes ==
            [Reserved(k, 0), Reserved(k, c.ttl), StoreResult(k, true), StoreResult(k, false), Mismatch(k)]
    ensures tr.Last().shard == map[k := Stored(first.(createdAt := c.ttl, ttl := c.ttl))]
  {
    hide EvictedTo, Run;
    tr := ReachTwoHolders(c, k, first.fingerprint, second.fingerprint);
    var s := TwoHolders(c, k);
    tr := WholeStore(c, tr, s, 0, k, first);
    s := AfterStore(c, s, k, first);
    tr := WholeRefusedStore(c, tr, s, 1, k, second);
    s := Answered(s, StoreResult(k, false));
    tr := WholeRefusedReserve(c, tr, s, 1, k, second.fingerprint);
  }

  /** Nor does `release`. A holder that outlives its lifetime removes the next holder's reservation, and
      a third request is reserved while the second one's is still live: two calls go out. */
  lemma LateReleaseFreesLiveKey(c: Config, k: Key, a: seq<Byte>, b: seq<Byte>, third: seq<Byte>)
      returns (tr: Trace, at: nat)
    requires Usual(c)
    ensures Run(c, tr.states, tr.actions) && at < |tr.states|
    ensures tr.states[at] == TwoHolders(c, k) && Live(tr.states[at].shard, k, tr.Last().clock)
    ensures tr.Last().outcomes == [Reserved(k, 0), Reserved(k, c.ttl), Reserved(k, c.ttl)]
    ensures tr.Last().clock == c.ttl
  {
    hide EvictedTo, Run;
    tr := ReachTwoHolders(c, k, a, b);
    at := |tr.states| - 1;
    var s := TwoHolders(c, k);
    tr := WholeRelease(c, tr, s, 0, k);
    s := AfterRelease(s, k);
    NothingToEvict(c, s.shard, k, c.ttl);
    tr := WholeReserve(c, tr, s, 0, k, third, NOTHING);
  }

  /** Thread 1 read a clock one lifetime ahead, then the clock stepped back to 0 and thread 0 reserved. */
  function ReadAhead(c: Config, k: Key, b: seq<Byte>): State {
    State(0, Marker(c, k, 0), 1, [Idle, Reserving(k, b, c.ttl)], {}, [Reserved(k, 0)])
  }

  lemma ReachReadAhead(c: Config, k: Key, a: seq<Byte>, b: seq<Byte>) returns (tr: Trace)
    requires Usual(c)
    ensures tr.At(c, ReadAhead(c, k, b))
  {
    hide EvictedTo, Run;
    BeginningRuns(c, c.ttl, 2);
    var s0 := Init(c.ttl, 2);
    var s := State(c.ttl, NOTHING, 0, [Idle, Reserving(k, b, c.ttl)], {}, []);
    assert s0.threads == IDLE && IDLE[1 := Reserving(k, b, c.ttl)] == s.threads;
    StepExtends(c, Beginning(c.ttl, 2), s0, StartReserve(1, k, b), s);
    tr := ClockMoves(c, Then(Beginning(c.ttl, 2), StartReserve(1, k, b), s), s, 0);
    NothingToEvict(c, NOTHING, k, 0);
    tr := WholeReserve(c, tr, s.(clock := 0), 0, k, a, NOTHING);
    assert AfterReserve(c, s.(clock := 0), k, NOTHING) == ReadAhead(c, k, b);
  }

  /** A reservation judges by its own clock reading. If the clock steps back after the reading, it can
      take over a slot that is live by the clock. */
  lemma ClockStepBackTakesOver(c: Config, k: Key, a: seq<Byte>, b: seq<Byte>) returns (tr: Trace, at: nat)
    requires Usual(c)
    ensures Run(c, tr.states, tr.actions) && at < |tr.states|
    ensures tr.states[at] == ReadAhead(c, k, b) && Live(tr.states[at].shard, k, tr.Last().clock)
    ensures tr.Last().outcomes == [Reserved(k, 0), Reserved(k, c.ttl)] && tr.Last().clock == 0
  {
    hide EvictedTo, Run;
    tr := ReachReadAhead(c, k, a, b);
    at := |tr.states| - 1;
    var s := ReadAhead(c, k, b);
    NothingToEvict(c, s.shard, k, c.ttl);
    var reading, swap := Reserving(k, b, c.ttl), ReserveSwap(k, b, c.ttl, 1, NOTHING);
    var swapping := s.(threads := [Idle, swap]);
    assert [Idle, reading][1 := swap] == swapping.threads;
    StepExtends(c, tr, s, Load(1, NOTHING), swapping);
    tr := Then(tr, Load(1, NOTHING), swapping);
    var last := State(0, Marker(c, k, c.ttl), 2, IDLE, {}, [Reserved(k, 0), Reserved(k, c.ttl)]);
    assert [Idle, swap][1 := Idle] == IDLE;
    assert [Reserved(k, 0)] + [Reserved(k, c.ttl)] == [Reserved(k, 0), Reserved(k, c.ttl)];
    StepExtends(c, tr, swapping, Swap(1), last);
    tr := Then(tr, Swap(1), last);
  }
}
