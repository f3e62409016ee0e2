/** Purge end to end: registry, key derivation and store together. Nothing is deleted by a purge; what
    was keyed before it simply becomes unreachable. */
module PurgeSoundness {
  import opened Prelude
  import opened CapacityPlan
  import opened CacheSpec
  import F = FlushRegistry
  import K = KeyFraming
  import N = ProviderNames

  /** One request being keyed: its canonical JSON, its provider chain, and the generation it read. */
  datatype Keyed = Keyed(json: Bytes, chain: seq<Bytes>, read: F.Read)

  function PreimageOf(q: Keyed): Bytes { K.Preimage(q.json, q.chain, q.read.value) }

  function KeyOf(hash: Bytes -> Digest, t: TenantId, q: Keyed): CacheKey {
    CacheKey(t, q.read.ns, hash(PreimageOf(q)))
  }

  ghost predicate WellKeyed(s: F.State, q: Keyed) {
    K.Free(q.json, K.UNIT_SEPARATOR) && F.Linearizable(s.cell, q.read)
  }

  /** The names q's chain is read as in the hashed bytes. */
  function NamesOf(q: Keyed): seq<Bytes> { K.AllPieces(N.NormalizeAll(q.chain)) }

  /** The later generation cannot be spelled by the earlier names: it is outside 0x1f * 2^56 to
      0x20 * 2^56 (`KeyFraming.TopByteIsUnitSeparator`), or no such name holds a record separator. */
  ghost predicate Distinguished(before: Keyed, after: Keyed) {
    K.TopByte(after.read.value) != K.UNIT_SEPARATOR || K.AllFree(before.chain, K.RECORD_SEPARATOR)
  }

  lemma GenerationFits(s: F.State, q: Keyed)
    requires F.Inv(s) && WellKeyed(s, q)
    ensures q.read.value <= U64_MAX
  {
    var v :| F.ReadAt(s.cell, q.read, v);
    F.GenBounded(s.cell, s.purges, v, q.read.ns);
  }

  /** The purge began only after q's generation read had returned. */
  ghost predicate KeyedBefore(q: Keyed, purge: F.Purge) { q.read.ended <= purge.began }

  /** q's generation read started only after the purge had returned. */
  ghost predicate KeyedAfter(q: Keyed, purge: F.Purge) { purge.ended <= q.read.began }

  ghost predicate Covers(purge: F.Purge, ns: string) { purge.ns == ns || purge.ns == F.WILDCARD }

  /** Exactly when two requests of one namespace on either side of a purge share a key, whatever their
      providers are called: the canonical JSON is the same, the earlier generation is 0, and the earlier
      names go on where the later ones stop and spell the later generation. */
  lemma PurgeChangesKeyExactly(hash: Bytes -> Digest, t: TenantId, s: F.State, p: nat, before: Keyed, after: Keyed)
    requires F.Inv(s) && p < |s.purges| && WellKeyed(s, before) && WellKeyed(s, after)
    requires before.read.ns == after.read.ns && Covers(s.purges[p], after.read.ns)
    requires KeyedBefore(before, s.purges[p]) && KeyedAfter(after, s.purges[p])
    requires before.read.value < U64_MAX
    requires hash(PreimageOf(before)) == hash(PreimageOf(after)) ==> PreimageOf(before) == PreimageOf(after)
    ensures before.read.value < after.read.value
    ensures KeyOf(hash, t, before) == KeyOf(hash, t, after) <==>
            before.json == after.json && K.Spells(NamesOf(before), before.read.value, NamesOf(after), after.read.value)
  {
    F.PurgeSeparatesReads(s, p, before.read, after.read);
    GenerationFits(s, before);
    GenerationFits(s, after);
    K.PreimagesCoincideExactly(
      before.json, before.chain, before.read.value, after.json, after.chain, after.read.value);
  }

  lemma DistinguishedIsEnough(before: Keyed, after: Keyed)
    requires Distinguished(before, after)
    ensures !K.Spells(NamesOf(before), before.read.value, NamesOf(after), after.read.value)
  {
    hide K.Spells, K.AllPieces, N.NormalizeAll, K.TopByte;
    if K.Spells(NamesOf(before), before.read.value, NamesOf(after), after.read.value) {
      K.SpellingNeedsSeparators(NamesOf(before), before.read.value, NamesOf(after), after.read.value);
      K.NormalizeAllStaysClean(before.chain, K.RECORD_SEPARATOR);
      K.AllPiecesStayClean(N.NormalizeAll(before.chain), K.RECORD_SEPARATOR);
      assert false;
    }
  }

  /** So they never share one while purges of the scope are counted below 0x1f * 2^56. */
  lemma PurgeChangesKey(hash: Bytes -> Digest, t: TenantId, s: F.State, p: nat, before: Keyed, after: Keyed)
    requires F.Inv(s) && p < |s.purges| && WellKeyed(s, before) && WellKeyed(s, after)
    requires before.read.ns == after.read.ns && Covers(s.purges[p], after.read.ns)
    requires KeyedBefore(before, s.purges[p]) && KeyedAfter(after, s.purges[p])
    requires before.read.value < U64_MAX && Distinguished(before, after)
    requires hash(PreimageOf(before)) == hash(PreimageOf(after)) ==> PreimageOf(before) == PreimageOf(after)
    ensures KeyOf(hash, t, before) != KeyOf(hash, t, after)
  {
    PurgeChangesKeyExactly(hash, t, s, p, before, after);
    DistinguishedIsEnough(before, after);
  }

  /** No lookup keyed after a purge of its namespace (or of everything) returned can find an entry
      whose request was keyed before that purge began, whenever and in whatever order the queued
      writes reach the store, for a hash without a collision among these requests and generations
      below the top of u64. */
  lemma PurgedEntriesAreUnreachable(hash: Bytes -> Digest, t: TenantId, s: F.State, p: nat, after: Keyed,
                                    plan: Plan, writes: seq<Write>, times: seq<nat>, states: seq<Contents>,
                                    origin: seq<Keyed>, k: nat) returns (j: nat)
    requires F.Inv(s) && p < |s.purges| && WellKeyed(s, after)
    requires Covers(s.purges[p], after.read.ns) && KeyedAfter(after, s.purges[p])
    requires plan.Valid() && WriteRun(plan, writes, times, states) && |origin| == |writes| && k < |states|
    requires forall i :: 0 <= i < |writes| && writes[i].key.tenant == t ==>
               && WellKeyed(s, origin[i]) && Distinguished(origin[i], after) && origin[i].read.value < U64_MAX
               && writes[i].key == KeyOf(hash, t, origin[i])
    requires forall i :: 0 <= i < |writes| && hash(PreimageOf(origin[i])) == hash(PreimageOf(after)) ==>
               PreimageOf(origin[i]) == PreimageOf(after)
    requires KeyOf(hash, t, after) in states[k]
    ensures j < k && writes[j].entry == states[k][KeyOf(hash, t, after)] && !KeyedBefore(origin[j], s.purges[p])
  {
    j := StoredEntryWasWritten(plan, writes, times, states, k, KeyOf(hash, t, after));
    assert writes[j].key == KeyOf(hash, t, origin[j]);
    if KeyedBefore(origin[j], s.purges[p]) {
      PurgeChangesKey(hash, t, s, p, origin[j], after);
      assert false;
    }
  }
}
