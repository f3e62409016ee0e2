# Routeplane: a verified model of the gateway's stateful core

Routeplane is an LLM gateway written in Rust. This project models the parts of it whose correctness
depends on many steps acting together, and proves what those parts promise. All proofs are Dafny
4.11; `dafny verify dfyconfig.toml` checks everything.

**The exact-match cache** (`crates/cache/src/lib.rs`) is one component made of several machines.

- `CapacityPlan` splits the byte budget over tenants. `CacheSpec`, `EvictionPlan` and `CacheStore` are
  the 64 copy-on-write shards, the running per-tenant byte counters and the eviction: a class with the
  source's fields, whose methods are proved against a specification that says which entries may go.
- `WriterLanes` is the producer/writer scheduler, one atomic operation per step: byte reservation,
  bounded lanes, the `scheduled` bits, the ready queue, the writer's FIFO and the `pending` slots.
  `WriterSafety` proves safety over all its runs, `WriterProgress` that they come to an end, and
  `WriterAdmission` that no insert is turned away without a reason.
  `StaleToken` is one concrete run. `WriterRecovery` says how long lost work stays lost and how long a
  sent token waits.
- `Envelope` and `JointRuns` join the two: stored plus queued bytes never exceed the configured budget,
  and whoever flushes reads what was written before.
- `FlushRegistry` is the compare-and-swap protocol of one tenant's purge generations, `ProviderNames` how
  provider names are normalized for the key (with `Trimming`), `KeyFraming` the bytes fed to the key hash (generation 0 adds none: `KeyFraming.GenerationZeroIsLegacy`), and
  `PurgeSoundness` combines both with the store.

**The idempotency store** (`crates/cache/src/idempotency.rs`): `IdempotencySpec` and
`IdempotencyEviction` are max-min fair eviction, `IdempotencyParity` what readers see of it,
`IdempotencyStore` the store's three operations as a class, `IdempotencyRuns` the same operations as interleaved clock reads, loads and swaps, and
`IdempotencyCalls` what links the two, and `IdempotencyReadings` what an attempt is based on. `SafeRetry` is what a stored response survives,
`ReservationOwnership` whose reservation a store promotes or a release removes, and `LateHolder` three
concrete runs.

**The streaming translators** (`crates/adapters/src`): `Utf8` and `Sse` are the line reassembler,
`Utf8Lossy` what it makes of bytes that are no UTF-8, `DataLines` what a payload is;
`Chunks` is the canonical chunk type and the client's fold over a stream; `Anthropic`,
`AnthropicStream` and `AnthropicFold` are one dialect end to end; `Gemini` and `GeminiFold` another;
`DefaultStream` is the fallback for providers without streaming.

**The Verhoeff check digit** (`crates/residency/src/verhoeff.rs`): `Verhoeff`.

The hash, the JSON parser and serializer, and the order in which hash maps enumerate their entries are
parameters or unconstrained choices, so the theorems hold for all of them. So is the wall clock, which
may also step back, as the system's clock may: what depends on time is stated over the readings the
operations make. `SafeRetry.MonotoneWindow` and `IdempotencyRuns.MonotoneRunsAreExclusive` say what that
comes to for a clock that never steps back.

## Where the code is weaker than its comments

The model does what the code does. Where a comment promises more, the exact extent of the promise is
proved instead.

- `take_ready` says that a stale token is harmless (crates/cache/src/lib.rs:909-910). It reads the lane
  empty and clears the bit in two operations, without the recheck that `finish_turn` has. A producer
  whose send and failed compare-exchange fall between the two leaves work that nobody will look at.
  `WriterSafety.LosesWorkIffStrands` proves that this step, and no other, loses work;
  `WriterSafety.NoLostWorkInRuns` that runs without it never do, and `WriterProgress.EveryCallReturns` that
  in those every insert and flush returns; `StaleToken.FlushCanWaitForever` is a 36-step run in which it
  happens and a `flush` then waits forever.
- `store` and `release` say "a slot we still own" and "never clobber a different request's later
  reservation" (crates/cache/src/idempotency.rs:346-347 and 383-384) but check only that some
  reservation is in flight. In `LateHolder.LateStoreTakesOverReservation` a holder that outlived its
  lifetime promotes the next holder's reservation; in `LateHolder.LateReleaseFreesLiveKey` it removes
  it, and a third request is reserved while the second is live. `StorePromotesLatest` and
  `ReleaseRemovesLatest` of `ReservationOwnership` say exactly when a store or release hits its
  caller's own reservation, and `IdempotencyRuns.SlotChanges` lists every way a slot can change.
- A reservation is exclusive by the clock reading it made
  (`IdempotencyRuns.ReservedOnlyOverNothingLive`). By the clock itself it takes over a live slot exactly if
  that slot expires after the clock and no later than the reading (`IdempotencyRuns.ExclusiveByTheClock`),
  so never with a reading that is not ahead of the clock, and never while the clock does not step back
  (`MonotoneRunsAreExclusive`). `LateHolder.ClockStepBackTakesOver` is a run in which it steps back.
- Eviction is said to push a tenant "down to parity, never below it" (crates/cache/src/idempotency.rs:411-413).
  That is so before the new marker goes in. In the shard that is published a tenant ends below parity with
  the inserter exactly if it held one slot more (`IdempotencyParity.BelowParityExactly`), by one slot and
  never by two (`PublishedIsFair`); `ParityIsOvershot` is an example with two slots against one.
- The framing comment says that the generation can never alias the provider chain
  (crates/cache/src/lib.rs:244-247). `KeyFraming.PreimagesCoincideExactly` gives the exact condition: a
  name with unit separators inside reads as the names between them, and otherwise the framing fails only
  for a name with a record separator and a generation from 0x1f·2^56 to 0x20·2^56, which no counting of
  purges reaches. A purge needs less: `PurgeSoundness.PurgeChangesKeyExactly` says that it works for all
  names unless the later generation is in that range and the earlier names spell it. `UnitSeparatorInNameCollides` and `RecordSeparatorInNameCollides` are examples.
- The Anthropic paths are said to agree (crates/adapters/src/anthropic.rs:577-581). The streamed finish
  reason is forced to `tool_calls` once a tool block appeared, the buffered one looks only at the stop
  reason. A tool block sent without any input streams the empty text as its arguments, which is no
  JSON, where the buffered path spells the input out. `AnthropicFold.StreamedEqualsBuffered` gives the
  exact conditions, `TruncatedToolCallFinishes` and `NoFragmentsNoArguments` an example each.
- Gemini's streamed ids are said to mirror the buffered ones (crates/adapters/src/gemini.rs:703-704).
  One numbers by call, the other by part; `GeminiFold.StreamedEqualsBuffered` says for which calls the
  ids coincide, and when the finish reasons do; `TextBeforeCallChangesId` and `CallAfterFinish` are
  examples where they do not.

## Model

| member | source | states |
|---|---|---|
| CapacityPlan.PartitionIsExactAndEven | crates/cache/src/lib.rs:513-522 | a split over tenants loses no byte, and two shares differ by at most one |
| CapacityPlan.Canonical | crates/cache/src/lib.rs:524-528 | the registry becomes a strictly ascending list of exactly its tenants |
| CapacityPlan.AscendingIsUnique | crates/cache/src/lib.rs:524-528 | a set of tenants has only one such list, so the plan's indices are canonical |
| CapacityPlan.New | crates/cache/src/lib.rs:512-560 | a well-formed plan whose registered tenants are exactly those given |
| CapacityPlan.PlanDependsOnTenantsOnly | crates/cache/src/lib.rs:485-489 | order and repetition in the registry do not matter: equal budget and tenants give equal plans |
| CapacityPlan.EnvelopeIsExact | crates/cache/src/lib.rs:534-537 | storage and writer shares of all tenants add up to exactly the budget; the writer shares are half of it, rounded down, or 16 MiB if that is less |
| CapacityPlan.AdmissionCeilingIsSharp | crates/cache/src/lib.rs:587-594 | a non-empty body is admitted exactly if its tenant is registered and it is within the advertised ceiling; admitted means at most 256 KiB of body and body, model and 160 bytes within both shares; what is admitted is never oversize for the store |
| CacheSpec.FoundWhileYoung | crates/cache/src/lib.rs:439-441 | a key is found exactly while the age of its entry is below the lifetime it was stored with, up to the top of u64 |
| CacheSpec.AgedGoFirst | crates/cache/src/lib.rs:763-794 | a tenant over its share keeps no entry whose age has reached its lifetime, and loses a younger one only if the younger ones alone are over the share |
| CacheSpec.UsageAfterUpsert | crates/cache/src/lib.rs:717-723 | replacing or adding an entry changes the tenant's bytes by the new cost minus the replaced one |
| CacheSpec.EvictionFits | crates/cache/src/lib.rs:764-794 | eviction always ends within the tenant's share |
| CacheSpec.EvictionIsIsolated | crates/cache/src/lib.rs:695-700 | no entry and no byte count of another tenant changes |
| CacheSpec.NewestInsertSurvives | crates/cache/src/lib.rs:775-794 | an unexpired, strictly newest insert that fits its share is there afterwards, unchanged |
| CacheSpec.EvictionIsDeterministic | crates/cache/src/lib.rs:764-794 | when no two unexpired entries of the tenant are equally old, the outcome does not depend on map order |
| CacheSpec.StoredEntryWasWritten | crates/cache/src/lib.rs:701-812 | over any sequence of writes, whatever a key finds was written earlier under exactly that key |
| EvictionPlan.OldestFirst | crates/cache/src/lib.rs:776-783 | the unexpired candidates, oldest first, each once |
| EvictionPlan.CollectShard | crates/cache/src/lib.rs:734-745 | a scan adds exactly the tenant's entries of that shard and their true cost, in whatever order the map gives them |
| EvictionPlan.DropExpired | crates/cache/src/lib.rs:763-774 | the first stage removes exactly the tenant's expired entries and keeps the total true |
| EvictionPlan.DropOldest | crates/cache/src/lib.rs:775-794 | the second stage removes the shortest oldest-first prefix that brings the tenant within its share |
| EvictionPlan.ChooseRemovals | crates/cache/src/lib.rs:763-794 | both stages together: nothing goes unless over budget, then all expired, then the shortest oldest prefix |
| CacheStore.RecountIsUsage | crates/cache/src/lib.rs:730-761 | counting shard by shard gives the tenant's true total, since each key is only in the shard its hash names |
| CacheStore.CacheCore.constructor | crates/cache/src/lib.rs:628-651 | an empty store with zeroed counters, in a valid state, for any budget a `usize` can hold |
| CacheStore.CacheCore.Lookup | crates/cache/src/lib.rs:657-669 | one probe of one shard answers as a search of the whole store would: a hit exactly while insertion time plus lifetime is ahead of the clock |
| CacheStore.CacheCore.StoreWithout | crates/cache/src/lib.rs:802-808 | one shard store of an eviction removes exactly the chosen entries of that shard and is visible to readers |
| CacheStore.CacheCore.PublishRemovals | crates/cache/src/lib.rs:796-811 | every snapshot readers can see during the per-shard stores is within all shares and holds every entry that stays, other tenants' included; the last one is the result |
| CacheStore.CacheCore.Collect | crates/cache/src/lib.rs:730-761 | the recount lists each of the tenant's entries once, with the new one in place, and totals them exactly |
| CacheStore.CacheCore.ApplyInsert | crates/cache/src/lib.rs:701-812 | guards, fast path and slow path together: the outcome is the specified eviction of the store with the entry inserted, counters stay true, drops are counted, and every published snapshot is within the shares and between the old and the new contents |
| CacheStore.CacheCore.Store | crates/cache/src/lib.rs:713-811 | deciding by the running counter gives exactly what deciding by a full recount would |
| CacheStore.CacheCore.StoreDirectly | crates/cache/src/lib.rs:724-728 | when the projection fits, one shard store is the whole specified outcome |
| CacheStore.CacheCore.StoreEvicting | crates/cache/src/lib.rs:730-811 | the slow path reaches the specified eviction with true counters |
| CacheStore.CacheCore.ProjectionIsExact | crates/cache/src/lib.rs:720-723 | counter minus replaced cost plus new cost is the true total with the new entry, with neither saturation biting |
| CacheStore.CacheCore.UsualEntriesFitMemory | crates/cache/src/lib.rs:534-537 | for any budget, an entry within its share and the writer's retention cap meets the address-space hypothesis of ApplyInsert |
| Envelope.EnvelopeHolds | crates/cache/src/lib.rs:491-493 | at any instant each tenant is within both shares, and stored plus queued bytes of all tenants are within the budget |
| JointRuns.ExecutedWasAdmitted | crates/cache/src/lib.rs:1067-1089 | whatever the writer executes passed admission: a write of the lane's own tenant, with exactly its entry's cost reserved, that the store does not refuse as oversize |
| JointRuns.AppliedWasExecuted | crates/cache/src/lib.rs:1209-1217 | every operation a lane has applied was executed by one earlier writer step |
| JointRuns.ReadYourWrites | crates/cache/src/lib.rs:1109-1127 | when a flush returns, every insert accepted before its barrier has been executed, and the store holds its entry unless eviction for an insert of the same tenant took it or a later insert replaced it; being refused at execution is ruled out |
| JointRuns.LastWriteIsFound | crates/cache/src/lib.rs:701-812 | a write that was unexpired and its tenant's newest when executed is found as long as no later insert of its tenant is executed |
| JointRuns.NothingStaleIsServed | crates/cache/src/lib.rs:657-669 | in any run, what a lookup finds was executed earlier as a write of exactly that key, and its age is below the lifetime it was written with |
| JointRuns.ExecutionDropsAgedFirst | crates/cache/src/lib.rs:763-794 | in any run, a write that takes its tenant over its share leaves no entry of it whose age has reached its lifetime, and takes a younger one only if those alone are over the share |
| JointRuns.RunWithinEnvelope | crates/cache/src/lib.rs:491-493 | in every state of every joint run of scheduler and store, stored plus queued bytes are within the budget |
| WriterLanes.InitInv | crates/cache/src/lib.rs:987-1025 | the freshly built scheduler satisfies the invariant |
| WriterLanes.StepKeepsInv | crates/cache/src/lib.rs:887-971 | every atomic step keeps: one token per scheduled lane and none otherwise; sent = finished + in hand + pending + queued, in order; reserved bytes within the share and equal to what is outstanding; barrier counts |
| WriterLanes.ReleaseKeepsBytes | crates/cache/src/lib.rs:870-874 | dropping an executed insert returns exactly its own reservation |
| WriterLanes.AckAddsLane | crates/cache/src/lib.rs:1213-1216 | executing a barrier acknowledges that lane once |
| WriterSafety.RunInv | crates/cache/src/lib.rs:887-1107 | the invariant holds in every state of every run |
| WriterSafety.ReadyNeverFills | crates/cache/src/lib.rs:1034-1037 | the ready queue of capacity lanes + 1 never holds more than one token per lane, so a send into it never finds it full |
| WriterSafety.LosesWorkIffStrands | crates/cache/src/lib.rs:902-914 | a step loses work exactly when it clears the bit of a lane that was refilled after the Empty read and whose producer has already given up |
| WriterSafety.NoLostWorkInRuns | crates/cache/src/lib.rs:887-971 | in runs without that step every lane with work is scheduled, or a producer is about to schedule it, or the writer is about to recheck it |
| WriterSafety.StuckMeansDrained | crates/cache/src/lib.rs:929-940 | no deadlock: when nobody can move and no work was lost, all threads are idle, all accepted operations are executed and all bytes released |
| WriterAdmission.InsertReturns | crates/cache/src/lib.rs:1060-1107 | in any run, an insert that has returned was put at the end of its lane, or at some moment of the call the lane's share could not take its bytes or its queue was full |
| WriterProgress.StepSpends | crates/cache/src/lib.rs:887-1107 | every step of the writer and of a thread inside a call, failed compare-exchanges included, uses up some of a quantity read off the state |
| WriterProgress.QuietRunsAreShort | crates/cache/src/lib.rs:887-1127 | once no new call starts, a run has at most as many steps left as that quantity says, whatever the interleaving |
| WriterProgress.EveryCallReturns | crates/cache/src/lib.rs:1109-1127 | where such a run stops, every insert and flush has returned and all lanes are drained exactly if no work was lost, and so whenever it took no stranding step |
| WriterProgress.RunsToAStop | crates/cache/src/lib.rs:887-1127 | from every reachable state there is such a stop |
| WriterSafety.FlushCoversEarlierWork | crates/cache/src/lib.rs:1109-1127 | when a flush returns, each lane accepted its barrier exactly once and everything it accepted before that is executed and released |
| WriterSafety.StepKeepsPlace | crates/cache/src/lib.rs:917-927 | each step leaves a waiting lane no further back, counting executed operations, or pops it |
| WriterSafety.AheadIsBounded | crates/cache/src/lib.rs:896-900 | at most lanes - 1 others are ahead of a waiting lane |
| WriterSafety.BoundedOvertaking | crates/cache/src/lib.rs:917-927 | over any stretch of a run, at most lanes - 1 operations execute before a waiting lane is popped |
| WriterSafety.TurnRunsOldest | crates/cache/src/lib.rs:902-914 | a popped lane runs its oldest unfinished operation, so each lane is served in send order |
| WriterRecovery.LostUntilNextSend | crates/cache/src/lib.rs:902-914 | a lane that lost its work gets attention back exactly in the step in which it accepts its next operation; until then nothing in it moves |
| WriterRecovery.LostOverRun | crates/cache/src/lib.rs:902-914 | the same over any stretch of a run without an accepted operation: nothing of the lane is finished |
| WriterRecovery.WaitingIsBounded | crates/cache/src/lib.rs:917-927 | from the ready queue at most as many operations as there are lanes can come first |
| WriterRecovery.BoundedWait | crates/cache/src/lib.rs:917-940 | over any run, from the moment a token is in the ready queue until its lane is popped, at most as many operations run as there are lanes |
| WriterSafety.ReleasesNeverUnderflow | crates/cache/src/lib.rs:870-874 | no release of reserved bytes takes more than the counter holds, so its subtraction never wraps |
| StaleToken.FlushCanWaitForever | crates/cache/src/lib.rs:906-911 | a concrete run after which nobody can move, a flush still waits, and its barrier sits in an unscheduled lane |
| FlushRegistry.StepKeepsInv | crates/cache/src/lib.rs:371-406 | every load, swap and read keeps the cell's history a sequence of single increments and every finished read linearizable |
| FlushRegistry.RunInv | crates/cache/src/lib.rs:331-406 | the same in every state of every run |
| FlushRegistry.TwoLoadsLinearize | crates/cache/src/lib.rs:358-365 | two loads with bumps in between return the effective generation of one instant between them |
| FlushRegistry.EveryValueIsTaken | crates/cache/src/lib.rs:348-353 | between two versions no effective generation is skipped |
| FlushRegistry.GenerationCountsPurges | crates/cache/src/lib.rs:371-406 | a scope's generation is the number of its successful purges, saturating |
| FlushRegistry.NthPurgeReturnsN | crates/cache/src/lib.rs:371-406 | concurrent purges of a scope return 1, 2, 3, ... with none lost or repeated |
| FlushRegistry.WildcardAlwaysHasRoom | crates/cache/src/lib.rs:382-392 | at most 64 scopes per tenant; the wildcard purge is never refused for room, a named one exactly when it is new and 63 named scopes exist |
| FlushRegistry.PurgeSeparatesReads | crates/cache/src/lib.rs:348-353 | reads finished before a covering purge and started after it differ, exactly when the earlier value is below the top of u64 |
| FlushRegistry.CallsEndDecided | crates/cache/src/lib.rs:371-406 | no purge ends on a lost race: it ends refused with nothing changed, or with one more version in which exactly its scope stands one higher |
| FlushRegistry.RefusalsAreJustified | crates/cache/src/lib.rs:371-392 | over every run a purge is refused as unknown exactly for an unregistered tenant, as invalid exactly for a name that is neither the wildcard nor 1 to 64 of a-z, 0-9, '_' and '-', and for room only as a new named scope with 63 others taken |
| Trimming.TrimIsStrip | crates/cache/src/lib.rs:240-243 | trimming takes exactly the white space around: the one core that neither starts nor ends with any, and all of what goes is white space |
| ProviderNames.NormalizedAlike | crates/cache/src/lib.rs:240-243 | two provider names are normalized alike exactly when, stripped of surrounding ASCII white space, they are equal byte by byte up to ASCII case |
| ProviderNames.ChainsNormalizedAlike | crates/cache/src/lib.rs:240-243 | two chains are normalized alike exactly when they have the same length and name the same provider at each place |
| KeyFraming.HashedBytes | crates/cache/src/lib.rs:234-252 | one key's hashed bytes written out: white space gone, lower case, separators, little-endian generation |
| KeyFraming.PreimageDeterminesParts | crates/cache/src/lib.rs:234-252 | for names free of the unit separator, and free of the record separator unless both generations lie outside 0x1f·2^56 to 0x20·2^56, two preimages are equal exactly when the JSON and the generation are and the chains name the same providers up to white space and ASCII case |
| KeyFraming.PreimagesCoincideExactly | crates/cache/src/lib.rs:234-252 | the exact condition for two equal preimages, whatever the names: the same JSON, and after cutting names at unit separators the same names and generation, or names of one that spell the generation of the other |
| KeyFraming.GenerationReadsAsNames | crates/cache/src/lib.rs:244-251 | a generation equals the chain of some names without a unit separator exactly when its top byte is one |
| KeyFraming.TopByteIsUnitSeparator | crates/cache/src/lib.rs:248-251 | which generations those are: 0x1f·2^56 up to 0x20·2^56 |
| KeyFraming.UnitSeparatorInNameCollides | crates/cache/src/lib.rs:240-243 | one name holding a unit separator has the preimage of two names |
| KeyFraming.RecordSeparatorInNameCollides | crates/cache/src/lib.rs:244-251 | for a generation in that range, one name starting with a record separator has the preimage of the generation |
| PurgeSoundness.PurgeChangesKeyExactly | crates/cache/src/lib.rs:205-258 | for any provider names and a collision-free hash, requests of one namespace keyed before and after a covering purge share a key exactly when their JSON is the same, the earlier generation is 0 and the earlier names spell the later generation |
| PurgeSoundness.PurgeChangesKey | crates/cache/src/lib.rs:205-258 | so their keys differ whenever the later generation is outside 0x1f·2^56 to 0x20·2^56, whatever the names, or the earlier names hold no record separator |
| PurgeSoundness.PurgedEntriesAreUnreachable | crates/cache/src/lib.rs:358-406 | whatever a lookup keyed after a purge finds was not keyed before that purge began, in whatever order the queued writes arrive, under the same condition on generations or names |
| IdempotencySpec.DeadGoFirst | crates/cache/src/idempotency.rs:433-442 | at the cap eviction leaves no slot whose age has reached its lifetime, and takes a living one only if the living ones alone are at the cap |
| IdempotencySpec.ReclaimTakesDeadFirst | crates/cache/src/idempotency.rs:294-312 | a reservation that takes somebody's living slot found the shard full of living ones, and publishes no dead slot |
| IdempotencySpec.SizeAtMost | crates/cache/src/idempotency.rs:413-416 | tenants with at most q slots each hold at most tenants times q |
| IdempotencySpec.FloorIsSafe | crates/cache/src/idempotency.rs:408-416 | nobody else's insert takes a slot from a tenant holding at most floor(cap / tenants) |
| IdempotencySpec.OwnInsertBelowFloorIsSafe | crates/cache/src/idempotency.rs:408-416 | a tenant's own insert takes none of its slots either while it holds less than floor(cap / tenants) |
| IdempotencyParity.PublishedIsFair | crates/cache/src/idempotency.rs:408-416 | in the shard a reservation publishes, its marker counted, whoever lost an unexpired slot holds at least every other tenant's count minus one, and the inserter, if it lost one, at least every other count |
| IdempotencyParity.BelowParityExactly | crates/cache/src/idempotency.rs:411-413 | a tenant that lost a slot to another's insert ends below parity with the inserter exactly if it held one slot more than it |
| IdempotencyParity.ParityIsOvershot | crates/cache/src/idempotency.rs:411-413 | two slots against one in a full shard of three: the smaller tenant's insert leaves one against two |
| IdempotencyEviction.EvictionVictim | crates/cache/src/idempotency.rs:536-547 | the largest holder pays: every other tenant holds less, or as much and the victim is the inserter, or as much with a smaller id while neither is the inserter; none exactly when nobody holds anything |
| IdempotencyEviction.CountTenants | crates/cache/src/idempotency.rs:445-448 | the tally is each tenant's true slot count, without zero entries |
| IdempotencyEviction.OldestFirst | crates/cache/src/idempotency.rs:449-453 | every slot once, oldest first |
| IdempotencyEviction.Position | crates/cache/src/idempotency.rs:459-464 | the first position of the victim in that list: its oldest slot |
| IdempotencyEviction.FairStep | crates/cache/src/idempotency.rs:454-476 | one more eviction keeps the outcome max-min fair |
| IdempotencyEviction.EvictFairly | crates/cache/src/idempotency.rs:443-476 | stage two leaves exactly cap - 1 slots; whoever lost one still holds at least every other count minus one and, unless it is the inserter, at least the inserter's count; each tenant lost its oldest first |
| IdempotencyEviction.EvictIfNeeded | crates/cache/src/idempotency.rs:433-477 | nothing below the cap, else the expired slots only if that suffices, else both stages; at the cap no slot of age at least its lifetime is left, and a living slot goes only if at least cap slots are living |
| IdempotencyStore.Store.constructor | crates/cache/src/idempotency.rs:229-247 | 64 empty shards, a cap of at least one, the lifetime in saturating milliseconds |
| IdempotencyStore.NextShard | crates/cache/src/idempotency.rs:294-312 | the published shard is what fair eviction leaves of the other slots plus the new marker, within the cap |
| IdempotencyStore.Store.Reserve | crates/cache/src/idempotency.rs:265-317 | a live slot decides the verdict and nothing changes; otherwise the caller gets the reservation and only its shard changes, to what fair eviction leaves plus the marker |
| IdempotencyStore.Store.StoreResponse | crates/cache/src/idempotency.rs:327-373 | succeeds exactly on an in-flight slot and a body of at most 256 KiB, stamping the response; an oversize body gives the reservation up |
| IdempotencyStore.Store.Release | crates/cache/src/idempotency.rs:379-398 | removes an in-flight slot and never a stored response |
| IdempotencyStore.RetryIsReplayed | crates/cache/src/idempotency.rs:254-264 | reserve, store, then a retry within the lifetime is answered with the stored response, and another body is refused |
| IdempotencyRuns.StepKeepsInv | crates/cache/src/idempotency.rs:265-398 | every interleaved load or swap keeps the shard within its cap and every replay's provenance |
| IdempotencyRuns.RunInv | crates/cache/src/idempotency.rs:265-398 | in every reachable state each replay so far was of a response stored under the same tenant, key and fingerprint, within its TTL |
| IdempotencyRuns.ReservedOnlyOverNothingLive | crates/cache/src/idempotency.rs:272-317 | a reservation succeeds only where no live slot is as of the clock reading it made, even after lost races and whatever the clock does |
| IdempotencyRuns.ExclusiveByTheClock | crates/cache/src/idempotency.rs:272-317 | by the clock a reservation takes over a live slot exactly if the slot expires after the clock and no later than the reservation's reading; never with a reading not ahead of the clock |
| IdempotencyRuns.MonotoneRunsAreExclusive | crates/cache/src/idempotency.rs:259-264 | along a run whose clock never steps back no reservation takes over a slot that is live by the clock |
| IdempotencyRuns.SlotChanges | crates/cache/src/idempotency.rs:265-398 | the complete list of ways one step can change or remove a slot |
| IdempotencyCalls.WholeReserve | crates/cache/src/idempotency.rs:265-317 | an uninterrupted `reserve` is a stretch of a run and publishes exactly the shard the store's `Reserve` promises |
| IdempotencyCalls.WholeStore | crates/cache/src/idempotency.rs:327-373 | an uninterrupted `store` on an in-flight slot is a stretch of a run and promotes it, stamped |
| IdempotencyCalls.WholeOversizeStore | crates/cache/src/idempotency.rs:337-341 | an uninterrupted `store` of a body above 256 KiB is refused and removes the reservation |
| IdempotencyCalls.WholeRelease | crates/cache/src/idempotency.rs:379-398 | an uninterrupted `release` of an in-flight slot is a stretch of a run and removes it |
| IdempotencyReadings.SuccessIsFresh | crates/cache/src/idempotency.rs:267-317 | in any run a successful reserve or store is based on a clock reading and a shard load of that very attempt, and the shard has not changed since the load |
| IdempotencyReadings.LostRaceIsProgress | crates/cache/src/idempotency.rs:313-316 | a swap that fails does so because the shard was published anew since the attempt loaded it |
| IdempotencyReadings.CallsEndDecided | crates/cache/src/idempotency.rs:265-398 | no call ends on a lost race: it ends with what a load found in a slot, or with a swap that went through |
| SafeRetry.LivingOutlastDead | crates/cache/src/idempotency.rs:433-477 | in any run, a reservation that evicts another key's living slot publishes no slot but its own that is dead by its reading |
| SafeRetry.EvictionSparesFloor | crates/cache/src/idempotency.rs:408-416 | eviction for anybody's insert leaves an unexpired slot of a tenant within its floor alone |
| SafeRetry.FloodCannotTouchSlot | crates/cache/src/idempotency.rs:418-428 | over any run of all tenants' operations, the owner's included while it stays below its floor, a slot of a tenant within its equal share stays as it is until a reservation reads a time past its expiry, whatever the clock does |
| SafeRetry.RetryIsAnsweredFromStore | crates/cache/src/idempotency.rs:272-289 | over such a run every `reserve` of a stored key whose reading is before expiry is told that very response, or that its fingerprint differs |
| SafeRetry.MonotoneWindow | crates/cache/src/idempotency.rs:418-428 | for a clock that never steps back, all of that holds until the clock reaches the expiry |
| LateHolder.LateStoreTakesOverReservation | crates/cache/src/idempotency.rs:346-351 | for every lifetime short of the top of u64, a run in which a late store promotes somebody else's reservation and the rightful holder is refused |
| LateHolder.LateReleaseFreesLiveKey | crates/cache/src/idempotency.rs:383-388 | for every lifetime short of the top of u64, a run in which a late release removes somebody else's live reservation and a third request is reserved |
| LateHolder.ClockStepBackTakesOver | crates/cache/src/lib.rs:72-79 | for every lifetime short of the top of u64, a run in which a reservation made with a reading from before the clock stepped back takes over a live slot |
| ReservationOwnership.MarkerComesFromReservation | crates/cache/src/idempotency.rs:294-317 | an in-flight slot after a step was there before it or is the marker that step installed |
| ReservationOwnership.RunOwned | crates/cache/src/idempotency.rs:265-398 | in every reachable state an in-flight slot is the marker of the latest successful reservation of its key |
| ReservationOwnership.StorePromotesLatest | crates/cache/src/idempotency.rs:343-371 | a successful store promotes the latest reservation of its key, which is the caller's own exactly when no other one succeeded since |
| ReservationOwnership.ReleaseRemovesLatest | crates/cache/src/idempotency.rs:379-398 | a successful release removes the latest reservation of its key, which is the caller's own exactly when no other one succeeded since |
| ReservationOwnership.LiveReservationIsKept | crates/cache/src/idempotency.rs:259-264 | until a reservation reads a time past its expiry, a reservation stays its holder's over any run with no store or release of the key and within the equal share, whatever the clock does |
| Utf8.DecodeEncode | crates/adapters/src/sse.rs:103-109 | lossy decoding leaves valid UTF-8 (section 3 of RFC 3629) unchanged |
| Utf8Lossy.DecodeIsLossyReading | crates/adapters/src/sse.rs:125 | for any bytes, lossy decoding is the one reading in which each scalar stands for its encoding, and each U+FFFD otherwise for the longest part that could have begun a scalar, at least one byte |
| Utf8.AsciiBytesAreScalars | crates/adapters/src/sse.rs:121-124 | in valid UTF-8 a newline byte is a newline, never part of another scalar |
| Sse.LinesJoin | crates/adapters/src/sse.rs:118-125 | the complete lines, each with its newline, followed by the leftover are the input again |
| Sse.LinesAppend | crates/adapters/src/sse.rs:110-112 | what was left over is all that later bytes need to know about earlier ones |
| Sse.PayloadsAppend | crates/adapters/src/sse.rs:98-135 | the same for payloads |
| DataLines.PayloadExactly | crates/adapters/src/sse.rs:126-131 | a line yields x exactly if it is "data:" and then x between white space, x having none at its ends; nothing exactly if it does not start with "data:" |
| DataLines.FirstLineYields | crates/adapters/src/sse.rs:118-134 | the same on the wire: the first line's bytes give that payload, or none, and the rest is read as if alone |
| DataLines.DataGoesThrough | crates/adapters/src/sse.rs:118-134 | a payload put between any white space and followed by any number of carriage returns comes out as it was |
| DataLines.Receive | crates/adapters/src/sse.rs:81-134 | for a whole stream of such lines and lines of other kinds, cut into reads in any way, exactly the payloads put in come out, in order |
| Sse.SseLineBuffer.Push | crates/adapters/src/sse.rs:110-112 | bytes are appended undecoded |
| Sse.SseLineBuffer.NextPayload | crates/adapters/src/sse.rs:118-134 | pops the first payload of the line-by-line specification, whose payloads are those of DataLines.PayloadExactly, or says there is none and keeps exactly the partial line |
| Sse.SseLineBuffer.Drain | crates/adapters/src/anthropic.rs:943-952 | popping until nothing is complete yields all payloads buffered |
| Sse.FeedAll | crates/adapters/src/sse.rs:87-92 | any chunking of the same bytes gives the payloads and leftover of the whole |
| Sse.DecodingPerLineIsDecodingTheWhole | crates/adapters/src/sse.rs:121-126 | for valid UTF-8, decoding line by line is decoding everything and then splitting |
| Sse.FeedText | crates/adapters/src/sse.rs:103-109 | chunks cut even inside a scalar damage no payload |
| Chunks.AsU32Wraps | crates/adapters/src/anthropic.rs:681-709 | counts that fit 32 bits stay, others come round every 2^32 |
| Chunks.FoldSingle | crates/types/src/lib.rs:572-600 | a one-choice chunk contributes exactly that choice to a client's fold |
| Chunks.OpeningExtends | crates/adapters/src/anthropic.rs:775-789 | a first fragment adds exactly one call at the next index |
| Chunks.FragmentExtends | crates/adapters/src/anthropic.rs:813-832 | an arguments fragment extends the call it names and no other |
| Anthropic.StreamState.constructor | crates/adapters/src/anthropic.rs:681-709 | the default state |
| Anthropic.StreamState.Translate | crates/adapters/src/anthropic.rs:715-897 | one event's chunks, new state and verdict are those of the step specification |
| Anthropic.RunAppend | crates/adapters/src/anthropic.rs:931-955 | a stream may be cut between any two events; nothing follows an event that ends it |
| Anthropic.ChunksCarryIdentity | crates/adapters/src/anthropic.rs:899-901 | between message starts every chunk carries the same id, model and time, and exactly choice 0 |
| Anthropic.IndicesAreDense | crates/adapters/src/anthropic.rs:693-704 | over any event stream the k-th call opened has index k (modulo the counter's width), and a fragment names the latest call opened |
| Anthropic.ClosedBlockTakesNoFragment | crates/adapters/src/anthropic.rs:796-801 | after a block closes, no fragment is emitted until the next tool block opens |
| Anthropic.NoiseIsInvisible | crates/adapters/src/anthropic.rs:895 | pings and unknown events, anywhere, change nothing |
| AnthropicStream.RunBytesAppend | crates/adapters/src/anthropic.rs:931-955 | buffered partial line plus translator state are all that later reads need |
| AnthropicStream.TranslateBuffered | crates/adapters/src/anthropic.rs:943-952 | the inner loop translates exactly the complete payloads, stopping where the stream ends |
| AnthropicStream.SseToChunks | crates/adapters/src/anthropic.rs:931-955 | the chunk list depends on the received bytes alone, not on how they were cut; a transport error comes once, last, and only if the stream had not ended |
| AnthropicStream.TextToChunks | crates/adapters/src/anthropic.rs:931-955 | for valid UTF-8 the chunks are those of the decoded text's payloads |
| AnthropicFold.Complete | crates/adapters/src/anthropic.rs:546-638 | the buffered fold: concatenated text, the calls in order, finish reason and usage |
| AnthropicFold.StreamedCallsAreBuffered | crates/adapters/src/anthropic.rs:556-575 | for an upstream whose fragments spell each input or are empty: call by call the same id, type and name, and the same arguments as JSON values exactly when no tool block was sent without input |
| AnthropicFold.BlocksFold | crates/adapters/src/anthropic.rs:761-835 | block after block, a client's fold holds the text and calls so far under dense indices |
| AnthropicFold.StreamFolds | crates/adapters/src/anthropic.rs:715-897 | what a client holds after a whole message, with any noise mixed in: text, calls, finish reason and usage |
| AnthropicFold.StreamedEqualsBuffered | crates/adapters/src/anthropic.rs:546-638 | for text, tool and other blocks, the last with or without input of their own: the folded stream has the buffered response's text, calls and usage; arguments agree exactly when no tool block was sent without input; finish reasons agree exactly when there is no tool block or the stop reason is tool_use or tool_calls |
| AnthropicFold.StopReasons | crates/adapters/src/anthropic.rs:922-928 | reason by reason what both paths report: end_turn and stop_sequence as stop, max_tokens as length, tool_use as tool_calls, any other as it is; the stream tool_calls whenever a tool block came |
| AnthropicFold.NamelessToolIsACall | crates/adapters/src/anthropic.rs:773-789 | a tool block without id or name still opens a call, with empty ones |
| AnthropicFold.TruncatedToolCallFinishes | crates/adapters/src/anthropic.rs:843-849 | a tool call cut short by the token limit finishes "tool_calls" in the stream and "length" in the buffered response |
| Gemini.StreamState.TranslateParts | crates/adapters/src/gemini.rs:757-812 | one delta per non-empty text and per call, with consecutive call indices and ids |
| Gemini.StreamState.Translate | crates/adapters/src/gemini.rs:713-852 | one frame's chunks, state and failure are those of the step specification |
| GeminiFold.CompleteOne | crates/adapters/src/gemini.rs:349-403 | a candidate's text and calls in part order, and its finish reason |
| GeminiFold.Complete | crates/adapters/src/gemini.rs:335-404 | every candidate becomes the choice of its position; no candidate is an error |
| GeminiFold.FramesFold | crates/adapters/src/gemini.rs:713-852 | however parts are spread over frames, a client folds their text, their calls and the latest finish reason |
| GeminiFold.FoldedFrames | crates/adapters/src/gemini.rs:713-852 | what a client holds after a whole candidate, wherever the frame boundaries and the finish reason fall |
| GeminiFold.LastFinishDecides | crates/adapters/src/gemini.rs:814-849 | the finish reason a client keeps is the last one sent, judged by the calls sent by then |
| GeminiFold.SameCallsTwoNumberings | crates/adapters/src/gemini.rs:349-373 | both paths list the same calls, one numbered by part and one by call |
| GeminiFold.StreamedEqualsBuffered | crates/adapters/src/gemini.rs:345-404 | the folded stream is the buffered choice; every call has the name of its part and its args as rendered, "{}" for none; ids agree exactly for calls whose part position is their ordinal; finish reasons agree exactly when there is no call, one came by the last finish reason, or the reason reads the same |
| GeminiFold.ArgumentsReachTheClient | crates/adapters/src/gemini.rs:363-366 | for a parser that reads back what the serializer writes: on both paths the i-th call's arguments parse to the args of the i-th call part, and are the empty object where it has none |
| GeminiFold.PositionsAreTheCalls | crates/adapters/src/gemini.rs:349-373 | the positions meant there are exactly those of the call parts, in order |
| GeminiFold.FinishReasons | crates/adapters/src/gemini.rs:854-861 | reason by reason what both paths report: STOP as stop, MAX_TOKENS as length, SAFETY and RECITATION as content_filter, any other as it is, and tool_calls once a call came |
| GeminiFold.ChunksCarryStamp | crates/adapters/src/gemini.rs:713-852 | every chunk carries the stream's id, model and creation time, and exactly choice 0 |
| GeminiFold.DecimalReadsBack | crates/adapters/src/gemini.rs:367-371 | the number in a call id is written in decimal digits without a leading zero and reads back |
| GeminiFold.TextBeforeCallChangesId | crates/adapters/src/gemini.rs:367-371 | a text part before a call: call_0 in the stream, call_1 in the buffered response |
| GeminiFold.CallAfterFinish | crates/adapters/src/gemini.rs:827-833 | a call after the finish reason: "stop" in the stream, "tool_calls" in the buffered response |
| GeminiFold.LastUsageDecides | crates/adapters/src/gemini.rs:814-849 | the usage a client keeps is the one sent with the last finish reason |
| GeminiFold.StreamedUsageIsBuffered | crates/adapters/src/gemini.rs:406-431 | that usage is the one the buffered path reports: prompt, total and cached counts as sent, and as completion the candidates' and thinking tokens together |
| DefaultStream.RoundTrip | crates/adapters/src/sse.rs:140-191 | for distinct choice indices, folding the two chunks recovers every choice and the usage; an empty finish reads "stop", an empty call list as none |
| DefaultStream.ChunksCarryResponse | crates/adapters/src/sse.rs:140-191 | both chunks carry the response's id, creation time, model, fingerprint, tier and choice indices; only the second has usage, and only its choices finish |
| DefaultStream.NoChoices | crates/adapters/src/sse.rs:148-154 | no choices are told as one empty finished choice 0 |
| DefaultStream.NoOtherIndex | crates/adapters/src/sse.rs:140-191 | no choice is invented |
| Verhoeff.MulAssociates | crates/residency/src/verhoeff.rs:8-20 | the multiplication table is associative (it is the dihedral group of the pentagon) |
| Verhoeff.PermSteps | crates/residency/src/verhoeff.rs:22-32 | each row of the permutation table is the previous one permuted once more, across the wrap from row 7 to row 0 |
| Verhoeff.StepSeparatesSwaps | crates/residency/src/verhoeff.rs:9-32 | for different digits the two table products of a swapped pair differ |
| Verhoeff.Validate | crates/residency/src/verhoeff.rs:36-49 | accepts exactly the non-empty strings of digits whose product is the identity |
| Verhoeff.ProductOfConcat | crates/residency/src/verhoeff.rs:40-48 | the checksum of a string is the product of its right and left parts |
| Verhoeff.SingleErrorIsDetected | crates/residency/src/verhoeff.rs:34-49 | changing one digit of a valid string of any length makes it invalid |
| Verhoeff.SwapIsDetected | crates/residency/src/verhoeff.rs:34-49 | swapping two different neighbours of a valid string of any length makes it invalid |
| Verhoeff.CheckDigitIsUnique | crates/residency/src/verhoeff.rs:34-49 | every payload has exactly one valid check digit |

## Left out

- SHA-256 and JSON text: the hash and the parser are parameters; a collision-free hash and canonical
  JSON without control characters are stated as hypotheses where they are used.
- Memory orderings and the insides of ArcSwap and of the standard channels: steps are sequentially
  consistent, compare-and-swap is on identity, channels are bounded FIFOs.
- Disconnection and shutdown of the writer, thread spawning, the bench gate, `/status` snapshots and
  the hit and miss counters.
- The scheduler and the flush registry as classes: other threads act between any two of their
  operations, so they are modelled as interleaved steps on a state value, one per atomic operation.
- CacheStore.CacheCore.PublishRemovals: the removal vectors are kept as one set, so the order of removals
  inside one shard store is not captured; the order of the shard stores is left open, as in the source.
- CacheStore.CacheCore.ApplyInsert: assumes that the tenant's entries and the new one, which are in
  memory together, fit the address space, so that no sum saturates.
- LateHolder.LateStoreTakesOverReservation: the three runs leave out a lifetime of zero and one at the top
  of u64, where slots expire at once or never.
- ReservationOwnership.LiveReservationIsKept: a late store or release of the key by an earlier holder ends
  it, as `LateHolder` shows.
- WriterProgress.EveryCallReturns: spurious failures of the weak compare-exchange are left out of its runs,
  since endlessly many of them keep a reservation trying.
- JointRuns.ReadYourWrites: the shard stores of one insert count as one step of the joint run; what
  readers see in between is in `CacheStore.CacheCore.PublishRemovals`.
- KeyFraming.PreimageDeterminesParts: provider names are byte strings trimmed of ASCII white space;
  trimming of other Unicode white space is not modelled.
- IdempotencyStore.Store.Reserve: the class is the single-threaded view; races and retries are in
  module IdempotencyRuns, and `IdempotencyCalls.WholeReserve` shows that an uninterrupted call there
  does the same.
- AnthropicFold.StreamedEqualsBuffered: at most 2^32 tool blocks, the range of the index, and blocks
  that are not interleaved: a delta's own block index is not read by the source either.
- AnthropicStream.SseToChunks: the clock has one value throughout a stream.
- GeminiFold.StreamedEqualsBuffered: the first candidate only, as the stream carries no other.
- Gemini's outer byte loop: the same loop as Anthropic's, without a stop event.
- DefaultStream.RoundTrip: message content is taken as text, image parts being dropped before; distinct
  choice indices are required because a client cannot tell choices with one index apart.
- Tenant ids are natural numbers, since only their order and identity matter.
- The other adapters, which post a body and share one parser, and Cohere's, whose state is one latch.
- HTTP plumbing, request building, vision parts, error classification, flags, guardrails, ledger
  vocabulary, router, circuit breaker, dashboard and demos.
