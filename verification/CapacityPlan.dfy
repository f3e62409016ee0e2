/** The startup-time ownership plan: one byte budget split into a stored and a queued half, each half
    divided across the registered tenants. */
module CapacityPlan {
  import opened Prelude

  /** Tenant ids are opaque and totally ordered; naturals stand for them. */
  type TenantId = nat

  const KEY_OVERHEAD_BYTES: nat := 160
  const MAX_ENTRY_BYTES: nat := 256 * 1024
  const MAX_WRITE_RETENTION_BYTES: nat := 16 * 1024 * 1024

  ghost function Sum(xs: seq<nat>): nat {
    if xs == [] then 0 else Sum(xs[..|xs| - 1]) + xs[|xs| - 1]
  }

  function Partition(total: nat, count: nat): (shares: seq<nat>)
    ensures |shares| == count
  {
    if count == 0 then []
    else seq(count, index requires 0 <= index => total / count + if index < total % count then 1 else 0)
  }

  lemma {:induction false} SumOfShares(total: nat, count: nat, k: nat)
    requires 0 < count && k <= count
    ensures Sum(Partition(total, count)[..k]) == k * (total / count) + Min(k, total % count)
  {
    var p := Partition(total, count);
    if k > 0 {
      SumOfShares(total, count, k - 1);
      assert p[..k][..k - 1] == p[..k - 1];
      assert k * (total / count) == (k - 1) * (total / count) + total / count;
    } else {
      assert p[..0] == [];
    }
  }

  /** The split is exact, loses no byte, and two tenants' shares differ by at most one byte. */
  lemma PartitionIsExactAndEven(total: nat, count: nat)
    requires 0 < count
    ensures Sum(Partition(total, count)) == total
    ensures forall i, j :: 0 <= i < count && 0 <= j < count ==>
              Partition(total, count)[i] <= Partition(total, count)[j] + 1
  {
    SumOfShares(total, count, count);
    assert Partition(total, count)[..count] == Partition(total, count);
    assert count * (total / count) + total % count == total;
  }

  // --- Canonical tenant list -------------------------------------------------------------------

  ghost predicate Ascending(ids: seq<TenantId>) {
    forall i, j :: 0 <= i < j < |ids| ==> ids[i] < ids[j]
  }

  /** `BTreeSet::insert` on the sorted list of its elements. */
  function InsertSorted(ids: seq<TenantId>, id: TenantId): (r: seq<TenantId>)
    requires Ascending(ids)
    ensures Ascending(r) && forall x :: x in r <==> x == id || x in ids
  {
    if ids == [] then [id]
    else if id < ids[0] then [id] + ids
    else if id == ids[0] then ids
    else
      var rest := InsertSorted(ids[1..], id);
      assert forall x :: x in rest ==> ids[0] < x;
      assert forall k :: 0 <= k < |rest| ==> rest[k] in rest;
      assert ids == [ids[0]] + ids[1..];
      [ids[0]] + rest
  }

  /** `into_iter().collect::<BTreeSet<_>>().into_iter()`. */
  method Canonical(tenantIds: seq<TenantId>) returns (ids: seq<TenantId>)
    ensures Ascending(ids) && forall x :: x in ids <==> x in tenantIds
  {
    ids := [];
    for k := 0 to |tenantIds|
      invariant Ascending(ids) && forall x :: x in ids <==> x in tenantIds[..k]
    {
      ids := InsertSorted(ids, tenantIds[k]);
    }
  }

  lemma SameMembersSameEmptiness(a: seq<TenantId>, b: seq<TenantId>)
    requires forall x :: x in a <==> x in b
    ensures a == [] <==> b == []
  {
    if a != [] { assert a[0] in a; }
    if b != [] { assert b[0] in b; }
  }

  lemma {:induction false} AscendingIsUnique(a: seq<TenantId>, b: seq<TenantId>)
    requires Ascending(a) && Ascending(b) && forall x :: x in a <==> x in b
    ensures a == b
  {
    SameMembersSameEmptiness(a, b);
    if a != [] {
      assert a[0] in b;
      assert b[0] in a;
      assert a[0] == b[0];
      forall x ensures x in a[1..] <==> x in b[1..] {
        assert x in a[1..] <==> x in a && x != a[0] by { assert a == [a[0]] + a[1..]; }
        assert x in b[1..] <==> x in b && x != b[0] by { assert b == [b[0]] + b[1..]; }
      }
      AscendingIsUnique(a[1..], b[1..]);
      assert a == [a[0]] + a[1..] && b == [b[0]] + b[1..];
    }
  }

  // --- The plan --------------------------------------------------------------------------------

  datatype Plan = Plan(tenantIds: seq<TenantId>, storage: seq<nat>, writer: seq<nat>, budget: nat) {
    ghost predicate Valid() {
      && Ascending(tenantIds)
      && this == MakePlan(budget, tenantIds)
    }

    predicate Registered(t: TenantId) { t in tenantIds }

    /** `tenant_index` lookup. */
    function Index(t: TenantId): (i: nat)
      requires Registered(t)
      ensures i < |tenantIds| && tenantIds[i] == t
    {
      IndexIn(tenantIds, t)
    }
  }

  function IndexIn(ids: seq<TenantId>, t: TenantId): (i: nat)
    requires t in ids
    ensures i < |ids| && ids[i] == t
  {
    if ids[0] == t then 0 else 1 + IndexIn(ids[1..], t)
  }

  function WriterBudget(budget: nat): nat { Min(budget / 2, MAX_WRITE_RETENTION_BYTES) }

  function MakePlan(budget: nat, ids: seq<TenantId>): Plan {
    Plan(ids, Partition(SatSub(budget, WriterBudget(budget)), |ids|), Partition(WriterBudget(budget), |ids|), budget)
  }

  /** `TenantCapacityPlan::new`. */
  method New(budget: nat, tenantIds: seq<TenantId>) returns (plan: Plan)
    ensures plan.Valid() && plan.budget == budget
    ensures forall t :: plan.Registered(t) <==> t in tenantIds
  {
    var ids := Canonical(tenantIds);
    plan := MakePlan(budget, ids);
  }

  /** Registry order and repeated virtual keys of one tenant change nothing. */
  lemma PlanDependsOnTenantsOnly(a: Plan, b: Plan)
    requires a.Valid() && b.Valid() && a.budget == b.budget
    requires forall t :: a.Registered(t) <==> b.Registered(t)
    ensures a == b
  {
    forall x ensures x in a.tenantIds <==> x in b.tenantIds {
      assert a.Registered(x) <==> b.Registered(x);
    }
    AscendingIsUnique(a.tenantIds, b.tenantIds);
  }

  /** With at least one tenant the stored and queued shares together are exactly the budget. */
  lemma EnvelopeIsExact(plan: Plan)
    requires plan.Valid()
    ensures plan.tenantIds != [] ==> Sum(plan.storage) + Sum(plan.writer) == plan.budget
    ensures plan.tenantIds == [] ==> Sum(plan.storage) + Sum(plan.writer) == 0
    ensures Sum(plan.writer) <= MAX_WRITE_RETENTION_BYTES
    ensures plan.tenantIds != [] ==>
              && 2 * Sum(plan.writer) <= plan.budget
              && (2 * Sum(plan.writer) + 1 >= plan.budget || Sum(plan.writer) == 16_777_216)
  {
    if plan.tenantIds != [] {
      PartitionIsExactAndEven(SatSub(plan.budget, WriterBudget(plan.budget)), |plan.tenantIds|);
      PartitionIsExactAndEven(WriterBudget(plan.budget), |plan.tenantIds|);
    }
  }

  // --- Admission -------------------------------------------------------------------------------

  function EntryCost(bodyLen: nat, modelLen: nat): nat { bodyLen + modelLen + KEY_OVERHEAD_BYTES }

  /** `max_response_bytes_for_tenant`: the advertised body ceiling. */
  function MaxResponseBytes(plan: Plan, t: TenantId, modelLen: nat): nat
    requires plan.Valid()
  {
    if !plan.Registered(t) then 0
    else
      var i := plan.Index(t);
      Min(SatSub(SatSub(Min(plan.storage[i], plan.writer[i]), KEY_OVERHEAD_BYTES), modelLen), MAX_ENTRY_BYTES)
  }

  /** `try_insert`'s oversize test, against the smaller of the two shares. */
  predicate OversizeForLane(plan: Plan, t: TenantId, bodyLen: nat, modelLen: nat)
    requires plan.Valid() && plan.Registered(t)
  {
    var i := plan.Index(t);
    bodyLen > MAX_ENTRY_BYTES || EntryCost(bodyLen, modelLen) > Min(plan.storage[i], plan.writer[i])
  }

  /** `apply_insert`'s oversize test, against the storage share. */
  predicate OversizeForStore(plan: Plan, t: TenantId, bodyLen: nat, modelLen: nat)
    requires plan.Valid() && plan.Registered(t)
  {
    bodyLen > MAX_ENTRY_BYTES || EntryCost(bodyLen, modelLen) > plan.storage[plan.Index(t)]
  }

  /** The advertised ceiling is sharp: a non-empty body is admitted exactly if its tenant is registered and
      it is within the ceiling. For an empty one the gate is the cost of the key and model alone. Nothing
      the lane admits is oversize for the store. */
  lemma AdmissionCeilingIsSharp(plan: Plan, t: TenantId, bodyLen: nat, modelLen: nat)
    requires plan.Valid()
    ensures bodyLen > 0 ==>
        ((plan.Registered(t) && !OversizeForLane(plan, t, bodyLen, modelLen)) <==>
         bodyLen <= MaxResponseBytes(plan, t, modelLen))
    ensures plan.Registered(t) && bodyLen == 0 ==> (!OversizeForLane(plan, t, bodyLen, modelLen) <==>
              modelLen + KEY_OVERHEAD_BYTES <= Min(plan.storage[plan.Index(t)], plan.writer[plan.Index(t)]))
    ensures plan.Registered(t) && !OversizeForLane(plan, t, bodyLen, modelLen) ==>
              !OversizeForStore(plan, t, bodyLen, modelLen)
    ensures plan.Registered(t) ==>
              (!OversizeForLane(plan, t, bodyLen, modelLen) <==>
               && bodyLen <= 262_144 && bodyLen + modelLen + 160 <= plan.storage[plan.Index(t)]
               && bodyLen + modelLen + 160 <= plan.writer[plan.Index(t)])
  {
  }
}
