/** The purge-generation registry: one copy-on-write cell per registered tenant, bumped by a
    compare-and-swap loop, read in two separate loads. Interleaved atomic steps of one tenant's cell. */
module FlushRegistry {
  import opened Prelude

  const WILDCARD: string := "*"
  const MAX_PURGED_SCOPES: nat := 64

  type Scopes = map<string, nat>

  datatype FlushError = InvalidNamespace | ScopeLimit | UnknownTenant

  predicate NamespaceChar(c: char) { 'a' <= c <= 'z' || '0' <= c <= '9' || c == '_' || c == '-' }

  predicate ValidNamespace(ns: string) {
    ns == WILDCARD || (ns != "" && |ns| <= 64 && forall i :: 0 <= i < |ns| ==> NamespaceChar(ns[i]))
  }

  function Gen(m: Scopes, ns: string): nat { if ns in m then m[ns] else 0 }

  /** The effective generation read from one snapshot. */
  function Effective(m: Scopes, ns: string): nat {
    if ns == WILDCARD then Gen(m, ns) else SatAdd(Gen(m, ns), Gen(m, WILDCARD))
  }

  /** `bump`'s refusal: a scope not yet present, and no slot left once the wildcard's is set aside. */
  predicate AtScopeLimit(m: Scopes, ns: string) {
    && ns !in m
    && |m| + (if ns != WILDCARD && WILDCARD !in m then 1 else 0) >= MAX_PURGED_SCOPES
  }

  function Bumped(m: Scopes, ns: string): Scopes { m[ns := SatAdd(Gen(m, ns), 1)] }

  /** A purge and a read that returned, with the cell versions current when they started and ended.
      A purge's own swap produced version `ended`. */
  datatype Purge = Purge(ns: string, began: nat, ended: nat, value: nat)
  datatype Read = Read(ns: string, began: nat, ended: nat, value: nat)

  /** A purge that was refused, with the cell version current at that moment. */
  datatype Refusal = Refusal(ns: string, at: nat, error: FlushError)

  datatype Thread =
    | Idle
    | Loading(ns: string, began: nat)                  // `bump`: next load the cell
    | Swapping(ns: string, began: nat, seen: nat)      // `bump`: next compare-and-swap against version `seen`
    | Reading(ns: string, began: nat)                  // `generation_effective`: next load the wildcard
    | Folding(ns: string, began: nat, at: nat, wild: nat)  // wildcard read at version `at`; next load the namespace

  /** `cell[v]` is the snapshot published as version v; the last one is current. */
  datatype State = State(registered: bool, cell: seq<Scopes>, threads: seq<Thread>,
                         purges: seq<Purge>, readLog: seq<Read>, refused: seq<Refusal>)
  {
    function Now(): nat
      requires cell != []
    {
      |cell| - 1
    }

    function Current(): Scopes
      requires cell != []
    {
      cell[|cell| - 1]
    }
  }

  datatype Action =
    | StartBump(thread: nat, ns: string)
    | StartRead(thread: nat, ns: string)
    | Advance(thread: nat)

  function SetThread(s: State, t: nat, p: Thread): State
    requires t < |s.threads|
  {
    s.(threads := s.threads[t := p])
  }

  function Refuse(s: State, ns: string, e: FlushError): State
    requires s.cell != []
  {
    s.(refused := s.refused + [Refusal(ns, s.Now(), e)])
  }

  function StartBumpNext(s: State, t: nat, ns: string): State
    requires s.cell != [] && t < |s.threads|
  {
    if !s.registered then Refuse(s, ns, UnknownTenant)
    else if !ValidNamespace(ns) then Refuse(s, ns, InvalidNamespace)
    else SetThread(s, t, Loading(ns, s.Now()))
  }

  function BumpNext(s: State, t: nat): State
    requires s.cell != [] && t < |s.threads| && (s.threads[t].Loading? || s.threads[t].Swapping?)
  {
    var p := s.threads[t];
    if p.Loading? then
      if AtScopeLimit(s.Current(), p.ns) then SetThread(Refuse(s, p.ns, ScopeLimit), t, Idle)
      else SetThread(s, t, Swapping(p.ns, p.began, s.Now()))
    else if p.seen == s.Now() then
      SetThread(s.(cell := s.cell + [Bumped(s.Current(), p.ns)],
                   purges := s.purges + [Purge(p.ns, p.began, |s.cell|, Gen(Bumped(s.Current(), p.ns), p.ns))]),
                t, Idle)
    else
      SetThread(s, t, Loading(p.ns, p.began))
  }

  function ReadNext(s: State, t: nat): State
    requires s.cell != [] && t < |s.threads| && (s.threads[t].Reading? || s.threads[t].Folding?)
  {
    var p := s.threads[t];
    if p.Reading? then
      var wild := if s.registered then Gen(s.Current(), WILDCARD) else 0;
      if p.ns == WILDCARD then
        SetThread(s.(readLog := s.readLog + [Read(p.ns, p.began, s.Now(), wild)]), t, Idle)
      else
        SetThread(s, t, Folding(p.ns, p.began, s.Now(), wild))
    else
      var own := if s.registered then Gen(s.Current(), p.ns) else 0;
      SetThread(s.(readLog := s.readLog + [Read(p.ns, p.began, s.Now(), SatAdd(own, p.wild))]), t, Idle)
  }

  function Step(s: State, action: Action): Option<State> {
    if s.cell == [] || action.thread >= |s.threads| then None else
    match action
    case StartBump(t, ns) => if s.threads[t].Idle? then Some(StartBumpNext(s, t, ns)) else None
    case StartRead(t, ns) => if s.threads[t].Idle? then Some(SetThread(s, t, Reading(ns, s.Now()))) else None
    case Advance(t) =>
      if s.threads[t].Idle? then None
      else if s.threads[t].Loading? || s.threads[t].Swapping? then Some(BumpNext(s, t))
      else Some(ReadNext(s, t))
  }

  function Init(registered: bool, threadCount: nat): State {
    State(registered, [map[]], seq(threadCount, t => Idle), [], [], [])
  }

  // --- Invariants ------------------------------------------------------------------------------

  ghost predicate ScopesBounded(m: Scopes) {
    |m| + (if WILDCARD in m then 0 else 1) <= MAX_PURGED_SCOPES
  }

  /** Version v+1 is version v with one valid scope bumped, by the v-th successful purge. */
  ghost predicate History(cell: seq<Scopes>, purges: seq<Purge>) {
    && |cell| == |purges| + 1 && cell[0] == map[]
    && (forall v :: 0 <= v < |cell| ==> ScopesBounded(cell[v]))
    && (forall v :: 0 <= v < |purges| ==> PurgeAt(cell, purges, v))
  }

  ghost predicate PurgeAt(cell: seq<Scopes>, purges: seq<Purge>, v: nat)
    requires |cell| == |purges| + 1 && v < |purges|
  {
    var p := purges[v];
    && p.began < p.ended == v + 1 && ValidNamespace(p.ns) && !AtScopeLimit(cell[v], p.ns)
    && cell[v + 1] == Bumped(cell[v], p.ns) && p.value == Gen(cell[v + 1], p.ns)
  }

  /** A read's result is the effective generation of some version current during the call. */
  ghost predicate ReadAt(cell: seq<Scopes>, r: Read, v: nat) {
    r.began <= v <= r.ended < |cell| && r.value == Effective(cell[v], r.ns)
  }

  ghost predicate Linearizable(cell: seq<Scopes>, r: Read) {
    exists v :: ReadAt(cell, r, v)
  }

  ghost predicate ThreadInv(cell: seq<Scopes>, p: Thread) {
    match p
    case Idle => true
    case Loading(ns, began) => began < |cell| && ValidNamespace(ns)
    case Swapping(ns, began, seen) => began <= seen < |cell| && ValidNamespace(ns) && !AtScopeLimit(cell[seen], ns)
    case Reading(_, began) => began < |cell|
    case Folding(ns, began, at, wild) => began <= at < |cell| && ns != WILDCARD && wild == Gen(cell[at], WILDCARD)
  }

  ghost predicate Justified(registered: bool, cell: seq<Scopes>, r: Refusal) {
    && r.at < |cell|
    && (r.error == UnknownTenant <==> !registered)
    && (r.error == InvalidNamespace <==> registered && !ValidNamespace(r.ns))
    && (r.error == ScopeLimit ==> AtScopeLimit(cell[r.at], r.ns))
  }

  ghost predicate Inv(s: State) {
    && History(s.cell, s.purges)
    && (!s.registered ==> s.purges == [])
    && (forall t :: 0 <= t < |s.threads| ==> ThreadInv(s.cell, s.threads[t]))
    && (forall k :: 0 <= k < |s.readLog| ==> Linearizable(s.cell, s.readLog[k]))
    && (forall k :: 0 <= k < |s.refused| ==> Justified(s.registered, s.cell, s.refused[k]))
  }

  lemma {:induction false} GenBounded(cell: seq<Scopes>, purges: seq<Purge>, v: nat, ns: string)
    requires History(cell, purges) && v < |cell|
    ensures Gen(cell[v], ns) <= U64_MAX
  {
    if v > 0 {
      GenBounded(cell, purges, v - 1, ns);
      assert PurgeAt(cell, purges, v - 1);
    }
  }

  /** One bump moves every effective generation by at most one, and its own scope's by exactly one
      below the top. */
  lemma BumpMovesByOne(cell: seq<Scopes>, purges: seq<Purge>, v: nat, ns: string)
    requires History(cell, purges) && v < |purges|
    ensures Effective(cell[v], ns) <= Effective(cell[v + 1], ns) <= Effective(cell[v], ns) + 1
    ensures Gen(cell[v], ns) <= Gen(cell[v + 1], ns)
    ensures purges[v].ns == ns || purges[v].ns == WILDCARD ==>
              Effective(cell[v + 1], ns) == SatAdd(Effective(cell[v], ns), 1)
  {
    assert PurgeAt(cell, purges, v);
    GenBounded(cell, purges, v, ns);
    GenBounded(cell, purges, v, WILDCARD);
  }

  lemma {:induction false} EffectiveGrows(cell: seq<Scopes>, purges: seq<Purge>, a: nat, b: nat, ns: string)
    requires History(cell, purges) && a <= b < |cell|
    ensures Effective(cell[a], ns) <= Effective(cell[b], ns) && Gen(cell[a], ns) <= Gen(cell[b], ns)
    decreases b
  {
    if a < b {
      EffectiveGrows(cell, purges, a, b - 1, ns);
      BumpMovesByOne(cell, purges, b - 1, ns);
    }
  }

  /** Unit steps cannot jump over a value: every generation between two versions' is some version's. */
  lemma {:induction false} EveryValueIsTaken(
    cell: seq<Scopes>, purges: seq<Purge>, a: nat, b: nat, ns: string, target: nat)
      returns (v: nat)
    requires History(cell, purges) && a <= b < |cell|
    requires Effective(cell[a], ns) <= target <= Effective(cell[b], ns)
    ensures a <= v <= b && Effective(cell[v], ns) == target
    decreases b
  {
    if Effective(cell[b], ns) == target {
      v := b;
    } else {
      BumpMovesByOne(cell, purges, b - 1, ns);
      v := EveryValueIsTaken(cell, purges, a, b - 1, ns, target);
    }
  }

  /** Two loads with bumps in between still return an effective generation of one single instant. */
  lemma TwoLoadsLinearize(cell: seq<Scopes>, purges: seq<Purge>, ns: string, at: nat, now: nat) returns (v: nat)
    requires History(cell, purges) && at <= now < |cell| && ns != WILDCARD
    ensures at <= v <= now && Effective(cell[v], ns) == SatAdd(Gen(cell[now], ns), Gen(cell[at], WILDCARD))
  {
    EffectiveGrows(cell, purges, at, now, ns);
    EffectiveGrows(cell, purges, at, now, WILDCARD);
    v := EveryValueIsTaken(cell, purges, at, now, ns, SatAdd(Gen(cell[now], ns), Gen(cell[at], WILDCARD)));
  }

  lemma InitInv(registered: bool, threadCount: nat)
    ensures Inv(Init(registered, threadCount))
  {
  }

  /** Publishing one more version keeps everything said about the earlier ones. */
  lemma PublishKeeps(cell: seq<Scopes>, next: Scopes)
    ensures forall r :: Linearizable(cell, r) ==> Linearizable(cell + [next], r)
    ensures forall p :: ThreadInv(cell, p) ==> ThreadInv(cell + [next], p)
    ensures forall registered, r :: Justified(registered, cell, r) ==> Justified(registered, cell + [next], r)
  {
    forall r | Linearizable(cell, r) ensures Linearizable(cell + [next], r) {
      var v :| ReadAt(cell, r, v);
      assert ReadAt(cell + [next], r, v);
    }
  }

  lemma BumpedScopesBounded(m: Scopes, ns: string)
    requires ScopesBounded(m) && !AtScopeLimit(m, ns)
    ensures ScopesBounded(Bumped(m, ns))
  {
    if ns in m {
      assert Bumped(m, ns).Keys == m.Keys;
      assert |Bumped(m, ns).Keys| == |m.Keys|;
    } else {
      assert Bumped(m, ns).Keys == m.Keys + {ns};
      assert |Bumped(m, ns).Keys| == |m.Keys| + 1;
    }
  }

  lemma PublishHistory(cell: seq<Scopes>, purges: seq<Purge>, p: Purge)
    requires History(cell, purges) && p.began < p.ended == |cell| && ValidNamespace(p.ns)
    requires !AtScopeLimit(cell[|cell| - 1], p.ns)
    requires p.value == Gen(Bumped(cell[|cell| - 1], p.ns), p.ns)
    ensures History(cell + [Bumped(cell[|cell| - 1], p.ns)], purges + [p])
  {
    var cell', purges' := cell + [Bumped(cell[|cell| - 1], p.ns)], purges + [p];
    BumpedScopesBounded(cell[|cell| - 1], p.ns);
    forall v | 0 <= v < |purges'| ensures PurgeAt(cell', purges', v) {
      if v < |purges| {
        assert PurgeAt(cell, purges, v);
      }
    }
  }

  lemma BumpKeepsInv(s: State, t: nat, s': State)
    requires Inv(s) && t < |s.threads| && (s.threads[t].Loading? || s.threads[t].Swapping?)
    requires s.registered && s' == BumpNext(s, t)
    ensures Inv(s')
  {
    var p := s.threads[t];
    assert ThreadInv(s.cell, p);
    if p.Swapping? && p.seen == s.Now() {
      PublishHistory(s.cell, s.purges, Purge(p.ns, p.began, |s.cell|, Gen(Bumped(s.Current(), p.ns), p.ns)));
      PublishKeeps(s.cell, Bumped(s.Current(), p.ns));
    }
  }

  lemma UnregisteredIsEmpty(s: State)
    requires Inv(s) && !s.registered
    ensures |s.cell| == 1 && s.cell[0] == map[]
  {
  }

  lemma ReadKeepsInv(s: State, t: nat, s': State)
    requires Inv(s) && t < |s.threads| && (s.threads[t].Reading? || s.threads[t].Folding?) && s' == ReadNext(s, t)
    ensures Inv(s')
  {
    var p := s.threads[t];
    assert ThreadInv(s.cell, p);
    if !s.registered { UnregisteredIsEmpty(s); }
    if p.Folding? {
      var v := TwoLoadsLinearize(s.cell, s.purges, p.ns, p.at, s.Now());
      assert ReadAt(s.cell, Read(p.ns, p.began, s.Now(), SatAdd(Gen(s.Current(), p.ns), p.wild)), v);
    } else if p.ns == WILDCARD {
      assert ReadAt(s.cell, Read(p.ns, p.began, s.Now(), Gen(s.Current(), WILDCARD)), s.Now());
    }
  }

  /** Only a registered tenant's cell is ever purged. */
  ghost predicate BumpersRegistered(s: State) {
    !s.registered ==> forall t :: 0 <= t < |s.threads| ==> !s.threads[t].Loading? && !s.threads[t].Swapping?
  }

  lemma StepKeepsInv(s: State, action: Action, s': State)
    requires Inv(s) && BumpersRegistered(s) && Step(s, action) == Some(s')
    ensures Inv(s') && BumpersRegistered(s') && s'.registered == s.registered
  {
    match action {
      case Advance(t) =>
        if s.threads[t].Loading? || s.threads[t].Swapping? { BumpKeepsInv(s, t, s'); } else { ReadKeepsInv(s, t, s'); }
      case _ =>
    }
  }

  ghost predicate Run(registered: bool, threadCount: nat, states: seq<State>, actions: seq<Action>) {
    && |states| == |actions| + 1 && states[0] == Init(registered, threadCount)
    && forall k :: 0 <= k < |actions| ==> Step(states[k], actions[k]) == Some(states[k + 1])
  }

  lemma {:induction false} RunInv(registered: bool, threadCount: nat, states: seq<State>, actions: seq<Action>, k: nat)
    requires Run(registered, threadCount, states, actions) && k < |states|
    ensures Inv(states[k]) && BumpersRegistered(states[k])
  {
    if k == 0 {
      InitInv(registered, threadCount);
    } else {
      RunInv(registered, threadCount, states, actions, k - 1);
      StepKeepsInv(states[k - 1], actions[k - 1], states[k]);
    }
  }

  // --- What callers rely on --------------------------------------------------------------------

  ghost function PurgesOf(purges: seq<Purge>, ns: string): nat {
    if purges == [] then 0 else PurgesOf(purges[..|purges| - 1], ns) + if purges[|purges| - 1].ns == ns then 1 else 0
  }

  /** A scope's generation is the number of its purges so far, up to the top of u64. */
  lemma {:induction false} GenerationCountsPurges(cell: seq<Scopes>, purges: seq<Purge>, v: nat, ns: string)
    requires History(cell, purges) && v < |cell|
    ensures Gen(cell[v], ns) == Min(PurgesOf(purges[..v], ns), U64_MAX)
  {
    if v > 0 {
      GenerationCountsPurges(cell, purges, v - 1, ns);
      assert PurgeAt(cell, purges, v - 1);
      assert purges[..v][..v - 1] == purges[..v - 1];
    }
  }

  /** The n-th successful purge of a scope returns n (saturating): no increment is lost or repeated. */
  lemma NthPurgeReturnsN(cell: seq<Scopes>, purges: seq<Purge>, k: nat)
    requires History(cell, purges) && k < |purges|
    ensures purges[k].value == Min(PurgesOf(purges[..k + 1], purges[k].ns), U64_MAX)
    ensures PurgesOf(purges[..k + 1], purges[k].ns) == PurgesOf(purges[..k], purges[k].ns) + 1
  {
    assert PurgeAt(cell, purges, k);
    GenerationCountsPurges(cell, purges, k + 1, purges[k].ns);
    assert purges[..k + 1][..k] == purges[..k];
  }

  /** A tenant never holds more than 64 scopes, its wildcard purge is never refused for lack of room,
      and a named scope is refused exactly when it is new and the 63 named slots (64 once the
      wildcard is in) are taken. */
  lemma WildcardAlwaysHasRoom(s: State, v: nat, ns: string)
    requires Inv(s) && v < |s.cell|
    ensures |s.cell[v]| <= 64 && !AtScopeLimit(s.cell[v], WILDCARD)
    ensures AtScopeLimit(s.cell[v], ns) <==>
              ns !in s.cell[v] && ns != WILDCARD && |s.cell[v].Keys - {WILDCARD}| == 63
  {
    var m := s.cell[v];
    assert ScopesBounded(m);
    if WILDCARD in m {
      assert m.Keys == (m.Keys - {WILDCARD}) + {WILDCARD};
      assert |m.Keys| == |m.Keys - {WILDCARD}| + 1;
    } else {
      assert m.Keys - {WILDCARD} == m.Keys;
      assert |m.Keys| == |m|;
    }
  }

  /** The characters of a named scope. */
  predicate ScopeLetter(c: char) {
    c in {'a', 'b', 'c', 'd', 'e', 'f', 'g', 'h', 'i', 'j', 'k', 'l', 'm', 'n', 'o', 'p', 'q', 'r', 's', 't',
          'u', 'v', 'w', 'x', 'y', 'z', '0', '1', '2', '3', '4', '5', '6', '7', '8', '9', '_', '-'}
  }

  /** A namespace that may be purged: the wildcard, or 1 to 64 of those. */
  ghost predicate Nameable(ns: string) {
    ns == "*" || (1 <= |ns| <= 64 && forall i :: 0 <= i < |ns| ==> ScopeLetter(ns[i]))
  }

  lemma NameableIsValid(ns: string)
    ensures ValidNamespace(ns) <==> Nameable(ns)
  {
    assert forall c :: NamespaceChar(c) <==> ScopeLetter(c);
  }

  /** Every purge that returned, told by what the caller knows: it was refused as unknown exactly for an
      unregistered tenant, as invalid exactly for a malformed name, for lack of room only as a new named
      scope when all named slots were taken, never as the wildcard; and what succeeded was none of these. */
  lemma RefusalsAreJustified(registered: bool, threadCount: nat, states: seq<State>, actions: seq<Action>, k: nat)
    requires Run(registered, threadCount, states, actions) && k < |states|
    ensures forall r :: r in states[k].refused ==>
              && (r.error == UnknownTenant <==> !registered)
              && (r.error == InvalidNamespace <==> registered && !Nameable(r.ns))
              && (r.error == ScopeLimit ==>
                    && r.ns != WILDCARD && r.at < |states[k].cell| && r.ns !in states[k].cell[r.at]
                    && |states[k].cell[r.at].Keys - {WILDCARD}| == 63)
    ensures forall p :: p in states[k].purges ==> registered && Nameable(p.ns)
  {
    hide AtScopeLimit, Step, ValidNamespace, Nameable;
    forall ns ensures ValidNamespace(ns) <==> Nameable(ns) { NameableIsValid(ns); }
    var s := states[k];
    RunInv(registered, threadCount, states, actions, k);
    RegistrationStays(registered, threadCount, states, actions, k);
    forall r | r in s.refused && r.error == ScopeLimit
      ensures r.ns != WILDCARD && r.at < |s.cell| && r.ns !in s.cell[r.at]
      ensures |s.cell[r.at].Keys - {WILDCARD}| == 63
    {
      assert Justified(s.registered, s.cell, r);
      WildcardAlwaysHasRoom(s, r.at, r.ns);
    }
    forall p | p in s.purges ensures registered && Nameable(p.ns) {
      var v :| 0 <= v < |s.purges| && s.purges[v] == p;
      assert PurgeAt(s.cell, s.purges, v);
    }
  }

  lemma {:induction false} RegistrationStays(
    registered: bool, threadCount: nat, states: seq<State>, actions: seq<Action>, k: nat)
    requires Run(registered, threadCount, states, actions) && k < |states|
    ensures states[k].registered == registered
  {
    if k > 0 {
      RegistrationStays(registered, threadCount, states, actions, k - 1);
    }
  }

  lemma BumpedIsOneHigher(m: Scopes, ns: string)
    ensures var m' := Bumped(m, ns);
            && m'.Keys == m.Keys + {ns} && (forall other :: other != ns ==> Gen(m', other) == Gen(m, other))
            && Gen(m', ns) == Min(Gen(m, ns) + 1, U64_MAX)
  {
  }

  /** No purge ends on a lost race, and no read without an answer: a purge ends refused for room, with the
      registry as it was, or with exactly one more version in which its scope stands one higher. */
  lemma CallsEndDecided(s: State, action: Action, s': State, t: nat)
    requires s.cell != [] && s'.cell != [] && Step(s, action) == Some(s')
    requires t < |s.threads| == |s'.threads| && !s.threads[t].Idle? && s'.threads[t].Idle?
    ensures var p := s.threads[t];
            if p.Loading? then
              && s'.cell == s.cell && s'.purges == s.purges
              && s'.refused == s.refused + [Refusal(p.ns, s.Now(), ScopeLimit)]
            else if p.Swapping? then
              && p.seen == s.Now() && |s'.cell| == |s.cell| + 1 && s'.cell[..|s.cell|] == s.cell
              && s'.refused == s.refused
              && s'.Current().Keys == s.Current().Keys + {p.ns}
              && (forall ns :: ns != p.ns ==> Gen(s'.Current(), ns) == Gen(s.Current(), ns))
              && Gen(s'.Current(), p.ns) == Min(Gen(s.Current(), p.ns) + 1, U64_MAX)
              && s'.purges == s.purges + [Purge(p.ns, p.began, |s.cell|, Gen(s'.Current(), p.ns))]
            else
              s'.cell == s.cell && |s'.readLog| == |s.readLog| + 1 && s'.readLog[|s.readLog|].ns == p.ns
  {
    hide Bumped, Gen, AtScopeLimit, ValidNamespace;
    BumpedIsOneHigher(s.Current(), s.threads[t].ns);
  }

  /** A purge of the namespace or of everything separates the reads around it: a read that finished
      before the purge began and one that started after it returned see different generations,
      unless the counter had already reached the top of its range. */
  lemma PurgeSeparatesReads(s: State, p: nat, before: Read, after: Read)
    requires Inv(s) && p < |s.purges| && Linearizable(s.cell, before) && Linearizable(s.cell, after)
    requires before.ns == after.ns && (s.purges[p].ns == before.ns || s.purges[p].ns == WILDCARD)
    requires before.ended <= s.purges[p].began && s.purges[p].ended <= after.began
    ensures before.value != after.value <==> before.value < U64_MAX
    ensures before.value <= after.value <= U64_MAX
  {
    var ns, cell := before.ns, s.cell;
    var u :| ReadAt(cell, before, u);
    var w :| ReadAt(cell, after, w);
    assert PurgeAt(cell, s.purges, p);
    EffectiveGrows(cell, s.purges, u, p, ns);
    BumpMovesByOne(cell, s.purges, p, ns);
    EffectiveGrows(cell, s.purges, p + 1, w, ns);
    GenerationCountsPurges(cell, s.purges, w, ns);
    GenerationCountsPurges(cell, s.purges, w, WILDCARD);
  }
}
