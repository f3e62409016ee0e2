/** The memory envelope over the whole component: stored entries and queued writes together. */
module Envelope {
  import opened Prelude
  import opened CapacityPlan
  import opened CacheSpec
  import opened CacheStore
  import W = WriterLanes

  lemma {:induction false} SumMonotone(a: seq<nat>, b: seq<nat>)
    requires |a| == |b| && forall i :: 0 <= i < |a| ==> a[i] <= b[i]
    ensures Sum(a) <= Sum(b)
  {
    if a != [] {
      SumMonotone(a[..|a| - 1], b[..|b| - 1]);
    }
  }

  ghost function StoredBytes(plan: Plan, m: Contents): seq<nat> {
    seq(|plan.tenantIds|, i requires 0 <= i < |plan.tenantIds| => Usage(m, plan.tenantIds[i]))
  }

  ghost function QueuedBytes(s: W.State): seq<nat> {
    seq(|s.lanes|, i requires 0 <= i < |s.lanes| => s.lanes[i].queuedBytes)
  }

  /** At any instant, whichever store snapshot readers see and wherever request threads and the writer
      stand: each tenant is within both its shares and all tenants together within the budget. */
  lemma EnvelopeHolds(plan: Plan, m: Contents, c: W.Config, s: W.State)
    requires plan.Valid() && WithinShares(plan, m)
    requires c.budget == plan.writer && W.Inv(c, s)
    ensures forall i :: 0 <= i < |s.lanes| ==> i < |plan.writer| && s.lanes[i].queuedBytes <= plan.writer[i]
    ensures Sum(StoredBytes(plan, m)) + Sum(QueuedBytes(s)) <= plan.budget
  {
    forall i | 0 <= i < |s.lanes| ensures s.lanes[i].queuedBytes <= plan.writer[i] {
      assert W.BytesAt(c, s, i);
    }
    SumMonotone(StoredBytes(plan, m), plan.storage);
    SumMonotone(QueuedBytes(s), plan.writer);
    EnvelopeIsExact(plan);
  }
}
