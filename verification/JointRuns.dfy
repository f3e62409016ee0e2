/** Scheduler and store in one run: the writer's step that executes an insert is the step that changes
    the store. */
module JointRuns {
  import opened Prelude
  import opened CapacityPlan
  import opened CacheSpec
  import opened CacheStore
  import opened Envelope
  import W = WriterLanes
  import S = WriterSafety

  /** `write(id)` is the write the insert numbered id carries; `contents` are the store's contents
      beside each scheduler state, `times` the clock readings of the executing steps. */
  datatype Joint = Joint(
    states: seq<W.State>, actions: seq<W.Action>, contents: seq<Contents>, times: seq<nat>, write: nat -> Write)

  /** The insert executed by a step, if it executes one. */
  function Executed(s: W.State, action: W.Action): Option<nat> {
    if action.WriterStep? && s.writer.Running? && s.writer.op.Insert? then Some(s.writer.op.id) else None
  }

  ghost predicate StoreStep(plan: Plan, r: Joint, k: nat)
    requires plan.Valid() && k < |r.actions| == |r.times|
    requires |r.states| == |r.contents| == |r.actions| + 1
  {
    var id := Executed(r.states[k], r.actions[k]);
    if id.Some? then Applied(plan, r.contents[k], r.write(id.value), r.times[k], r.contents[k + 1])
    else r.contents[k + 1] == r.contents[k]
  }

  /** What `try_insert` lets through to lane i: a write of the lane's tenant, with the cost of its entry
      reserved, that is not oversize. */
  ghost predicate Admitted(plan: Plan, write: nat -> Write, i: nat, op: W.Op)
    requires plan.Valid()
  {
    op.Insert? ==>
      var w := write(op.id);
      && plan.Registered(w.key.tenant) && plan.Index(w.key.tenant) == i && op.cost == w.entry.Cost()
      && !OversizeForLane(plan, w.key.tenant, |w.entry.body|, |w.entry.model|)
  }

  ghost predicate Run(plan: Plan, c: W.Config, threadCount: nat, r: Joint) {
    && plan.Valid() && c.budget == plan.writer
    && S.Run(c, threadCount, r.states, r.actions)
    && |r.contents| == |r.states| && |r.times| == |r.actions| && r.contents[0] == map[]
    && (forall k :: 0 <= k < |r.actions| && r.actions[k].StartInsert? ==>
          Admitted(plan, r.write, r.actions[k].lane, r.actions[k].op))
    && forall k :: 0 <= k < |r.actions| ==> StoreStep(plan, r, k)
  }

  lemma RunLengths(plan: Plan, c: W.Config, threadCount: nat, r: Joint)
    requires Run(plan, c, threadCount, r)
    ensures |r.states| == |r.contents| == |r.actions| + 1 && |r.times| == |r.actions| && plan.Valid()
    ensures S.Run(c, threadCount, r.states, r.actions)
  {
  }

  // --- Only what was admitted is executed ------------------------------------------------------

  ghost predicate ThreadAdmitted(plan: Plan, write: nat -> Write, p: W.Producer)
    requires plan.Valid()
  {
    p.Reserving? || p.Reserved? ==> Admitted(plan, write, p.lane, p.op)
  }

  ghost predicate AllAdmitted(plan: Plan, write: nat -> Write, i: nat, ops: seq<W.Op>)
    requires plan.Valid()
  {
    forall p :: 0 <= p < |ops| ==> Admitted(plan, write, i, ops[p])
  }

  ghost predicate OnlyAdmitted(plan: Plan, write: nat -> Write, s: W.State)
    requires plan.Valid()
  {
    && (forall t :: 0 <= t < |s.threads| ==> ThreadAdmitted(plan, write, s.threads[t]))
    && (forall i :: 0 <= i < |s.lanes| ==> AllAdmitted(plan, write, i, s.lanes[i].sent))
  }

  lemma ThreadStaysAdmitted(plan: Plan, write: nat -> Write, c: W.Config, s: W.State, t: nat, s': W.State)
    requires plan.Valid() && W.InRange(c, s) && t < |s.threads| && W.ThreadNext(c, s, t) == Some(s')
    requires ThreadAdmitted(plan, write, s.threads[t])
    ensures |s'.threads| == |s.threads| && ThreadAdmitted(plan, write, s'.threads[t])
  {
    hide Admitted;
  }

  lemma SentStaysAdmitted(plan: Plan, write: nat -> Write, c: W.Config, s: W.State, t: nat, s': W.State, i: nat)
    requires plan.Valid() && W.InRange(c, s) && t < |s.threads| && W.ThreadNext(c, s, t) == Some(s')
    requires i < |s.lanes| == |s'.lanes|
    requires ThreadAdmitted(plan, write, s.threads[t]) && AllAdmitted(plan, write, i, s.lanes[i].sent)
    ensures AllAdmitted(plan, write, i, s'.lanes[i].sent)
  {
    hide W.ThreadNext, W.InRange;
    assert W.ProducerInRange(s.threads[t], |s.lanes|) && |s.lanes| == c.Lanes() by { InRangeAt(c, s, t); }
    W.ThreadSentGrowth(c, s, t, s', i);
  }

  lemma InRangeAt(c: W.Config, s: W.State, t: nat)
    requires W.InRange(c, s) && t < |s.threads|
    ensures W.ProducerInRange(s.threads[t], |s.lanes|) && |s.lanes| == c.Lanes()
  {
  }

  lemma ThreadStepKeepsAdmitted(plan: Plan, write: nat -> Write, c: W.Config, s: W.State, t: nat, s': W.State)
    requires plan.Valid() && W.InRange(c, s) && t < |s.threads| && W.ThreadNext(c, s, t) == Some(s')
    requires OnlyAdmitted(plan, write, s)
    ensures OnlyAdmitted(plan, write, s')
  {
    hide W.ThreadNext, W.InRange, AllAdmitted, ThreadAdmitted;
    InRangeAt(c, s, t);
    W.ThreadSends(c, s, t, s');
    ThreadStaysAdmitted(plan, write, c, s, t, s');
    forall i | 0 <= i < |s'.lanes| ensures AllAdmitted(plan, write, i, s'.lanes[i].sent) {
      SentStaysAdmitted(plan, write, c, s, t, s', i);
    }
  }

  lemma StepKeepsAdmitted(plan: Plan, write: nat -> Write, c: W.Config, s: W.State, action: W.Action, s': W.State)
    requires plan.Valid() && W.InRange(c, s) && W.Step(c, s, action) == Some(s') && OnlyAdmitted(plan, write, s)
    requires action.StartInsert? ==> Admitted(plan, write, action.lane, action.op)
    ensures OnlyAdmitted(plan, write, s')
  {
    hide W.ThreadNext, W.WriterNext, Admitted;
    match action {
      case Advance(t) => ThreadStepKeepsAdmitted(plan, write, c, s, t, s');
      case WriterStep => W.WriterKeepsSent(s, s');
      case _ =>
    }
  }

  lemma {:induction false} RunAdmits(plan: Plan, c: W.Config, threadCount: nat, r: Joint, n: nat)
    requires Run(plan, c, threadCount, r) && n < |r.states|
    ensures OnlyAdmitted(plan, r.write, r.states[n])
  {
    hide W.Step, W.Inv, W.InRange, OnlyAdmitted, Admitted, StoreStep;
    if n == 0 {
      StartAdmits(plan, c, threadCount, r);
    } else {
      RunAdmits(plan, c, threadCount, r, n - 1);
      assert S.StepAt(c, r.states, r.actions, n - 1);
      StepKeepsAdmitted(plan, r.write, c, r.states[n - 1], r.actions[n - 1], r.states[n]);
    }
  }

  lemma StartAdmits(plan: Plan, c: W.Config, threadCount: nat, r: Joint)
    requires Run(plan, c, threadCount, r)
    ensures OnlyAdmitted(plan, r.write, r.states[0])
  {
    hide Admitted, StoreStep, W.Step;
    assert r.states[0] == W.Init(c, threadCount);
  }

  /** What the writer executes was admitted, so it is a write of the lane's tenant that the store does
      not refuse. */
  lemma ExecutedWasAdmitted(plan: Plan, c: W.Config, threadCount: nat, r: Joint, x: nat)
    requires Run(plan, c, threadCount, r) && x < |r.states| && r.states[x].writer.Running?
    ensures Admitted(plan, r.write, r.states[x].writer.lane, r.states[x].writer.op)
  {
    hide W.Step, Admitted, StoreStep, W.FlushInv, W.TokenAt, W.BytesAt;
    RunAdmits(plan, c, threadCount, r, x);
    S.RunInv(c, threadCount, r.states, r.actions, x);
    var s := r.states[x];
    var i, l := s.writer.lane, s.lanes[s.writer.lane];
    assert W.OrderAt(s, i);
    assert l.sent[|l.finished|] == s.writer.op;
    assert AllAdmitted(plan, r.write, i, l.sent);
  }

  lemma AdmittedIsStored(plan: Plan, write: nat -> Write, i: nat, op: W.Op)
    requires plan.Valid() && op.Insert? && Admitted(plan, write, i, op)
    ensures var w := write(op.id);
            && plan.Registered(w.key.tenant) && w.entry.Cost() <= plan.storage[plan.Index(w.key.tenant)]
            && !OversizeForStore(plan, w.key.tenant, |w.entry.body|, |w.entry.model|)
  {
    var w := write(op.id);
    AdmissionCeilingIsSharp(plan, w.key.tenant, |w.entry.body|, |w.entry.model|);
  }

  // --- What was applied was executed -----------------------------------------------------------

  lemma ThreadAppliesNothing(c: W.Config, s: W.State, t: nat, s': W.State, i: nat)
    requires W.InRange(c, s) && t < |s.threads| && W.ThreadNext(c, s, t) == Some(s') && i < c.Lanes()
    ensures |s'.lanes| == |s.lanes| && s'.lanes[i].applied == s.lanes[i].applied
  {
  }

  lemma WriterApplies(c: W.Config, s: W.State, s': W.State, i: nat)
    requires W.InRange(c, s) && W.WriterNext(s) == Some(s') && i < c.Lanes()
    ensures |s'.lanes| == |s.lanes|
    ensures s'.lanes[i].applied ==
              s.lanes[i].applied + if s.writer.Running? && s.writer.lane == i then [s.writer.op] else []
  {
  }

  lemma AppliedGrows(c: W.Config, s: W.State, action: W.Action, s': W.State, i: nat)
    requires W.InRange(c, s) && W.Step(c, s, action) == Some(s') && i < c.Lanes()
    ensures |s'.lanes| == |s.lanes|
    ensures s'.lanes[i].applied ==
              s.lanes[i].applied +
              if action.WriterStep? && s.writer.Running? && s.writer.lane == i then [s.writer.op] else []
  {
    hide W.ThreadNext, W.WriterNext;
    match action {
      case WriterStep => WriterApplies(c, s, s', i);
      case Advance(t) => ThreadAppliesNothing(c, s, t, s', i);
      case _ =>
    }
  }

  /** Every operation a lane has applied was executed by one earlier step. */
  lemma {:induction false} AppliedWasExecuted(
    c: W.Config, threadCount: nat, states: seq<W.State>, actions: seq<W.Action>, n: nat, i: nat, p: nat)
      returns (x: nat)
    requires S.Run(c, threadCount, states, actions) && n < |states| && i < c.Lanes()
    requires i < |states[n].lanes| && p < |states[n].lanes[i].applied|
    ensures x < n && actions[x] == W.WriterStep
    ensures states[x].writer == W.Running(i, states[n].lanes[i].applied[p])
    decreases n
  {
    hide W.Inv, W.Step;
    assert n > 0 by {
      if n == 0 { StartsEmpty(c, threadCount, states, actions, i); }
    }
    S.RunInv(c, threadCount, states, actions, n - 1);
    assert S.StepAt(c, states, actions, n - 1);
    AppliedGrows(c, states[n - 1], actions[n - 1], states[n], i);
    if p < |states[n - 1].lanes[i].applied| {
      x := AppliedWasExecuted(c, threadCount, states, actions, n - 1, i, p);
    } else {
      x := n - 1;
    }
  }

  lemma StartsEmpty(c: W.Config, threadCount: nat, states: seq<W.State>, actions: seq<W.Action>, i: nat)
    requires S.Run(c, threadCount, states, actions) && i < c.Lanes()
    ensures i < |states[0].lanes| && states[0].lanes[i].applied == []
  {
  }

  // --- What becomes of an entry ----------------------------------------------------------------

  ghost predicate Holds(m: Contents, w: Write) { w.key in m && m[w.key] == w.entry }

  /** The write executed by step y was let in, and evicting for it, or putting it in w's place, is what
      left the store without w. */
  ghost predicate Displaces(plan: Plan, r: Joint, y: nat, w: Write)
    requires plan.Valid() && y < |r.actions| == |r.times| && |r.states| == |r.contents| == |r.actions| + 1
  {
    var id := Executed(r.states[y], r.actions[y]);
    && id.Some?
    && var other := r.write(id.value);
       && other.key.tenant == w.key.tenant && plan.Registered(w.key.tenant)
       && EvictedTo(r.contents[y][other.key := other.entry], w.key.tenant, r.times[y],
                    plan.storage[plan.Index(w.key.tenant)], r.contents[y + 1])
       && !Holds(r.contents[y + 1], w)
  }

  /** A step that executes an insert evicts for it. */
  lemma ExecutingEvicts(plan: Plan, c: W.Config, threadCount: nat, r: Joint, y: nat)
    requires Run(plan, c, threadCount, r) && y < |r.actions| && Executed(r.states[y], r.actions[y]).Some?
    ensures |r.states| == |r.contents| == |r.actions| + 1 && |r.times| == |r.actions| && plan.Valid()
    ensures var other := r.write(Executed(r.states[y], r.actions[y]).value);
            && plan.Registered(other.key.tenant)
            && other.entry.Cost() <= plan.storage[plan.Index(other.key.tenant)]
            && EvictedTo(r.contents[y][other.key := other.entry], other.key.tenant, r.times[y],
                         plan.storage[plan.Index(other.key.tenant)], r.contents[y + 1])
  {
    hide W.Step, W.Inv, EvictedTo, Admitted;
    var s := r.states[y];
    ExecutedWasAdmitted(plan, c, threadCount, r, y);
    AdmittedIsStored(plan, r.write, s.writer.lane, s.writer.op);
    assert StoreStep(plan, r, y);
  }

  lemma OnlyOwnTenantDisplaces(plan: Plan, c: W.Config, threadCount: nat, r: Joint, y: nat, w: Write)
    requires Run(plan, c, threadCount, r) && y < |r.actions| && Holds(r.contents[y], w)
    ensures Holds(r.contents[y + 1], w) || Displaces(plan, r, y, w)
  {
    hide W.Step, W.Inv, EvictedTo, Admitted;
    var id := Executed(r.states[y], r.actions[y]);
    assert StoreStep(plan, r, y);
    if id.Some? {
      ExecutingEvicts(plan, c, threadCount, r, y);
      var other := r.write(id.value);
      if other.key.tenant != w.key.tenant {
        EvictionIsIsolated(r.contents[y], other.key, other.entry, r.times[y],
                           plan.storage[plan.Index(other.key.tenant)], r.contents[y + 1], w.key);
      }
    }
  }

  lemma {:induction false} HeldOrDisplaced(
    plan: Plan, c: W.Config, threadCount: nat, r: Joint, x: nat, n: nat, w: Write)
    requires Run(plan, c, threadCount, r) && x <= n < |r.states| && Holds(r.contents[x], w)
    ensures |r.states| == |r.contents| == |r.actions| + 1 && |r.times| == |r.actions| && plan.Valid()
    ensures Holds(r.contents[n], w) || exists y :: x <= y < n && Displaces(plan, r, y, w)
    decreases n
  {
    hide Run, Displaces, Holds;
    RunLengths(plan, c, threadCount, r);
    if x < n {
      HeldOrDisplaced(plan, c, threadCount, r, x, n - 1, w);
      if Holds(r.contents[n - 1], w) {
        OnlyOwnTenantDisplaces(plan, c, threadCount, r, n - 1, w);
      }
    }
  }

  // --- Read your writes ------------------------------------------------------------------------

  /** In step n a flush returns to thread t, and lane i accepted the insert `op` at position p, before the
      flush's barrier. */
  ghost predicate FlushedInsert(r: Joint, n: nat, t: nat, i: nat, p: nat, op: W.Op) {
    && n < |r.actions| < |r.states| && r.actions[n] == W.Advance(t)
    && t < |r.states[n].threads| && r.states[n].threads[t].Awaiting? && i < |r.states[n].lanes|
    && op.Insert? && p < |r.states[n].lanes[i].sent| && r.states[n].lanes[i].sent[p] == op
    && W.Barrier(r.states[n].threads[t].flush) in r.states[n].lanes[i].sent[p..]
  }

  lemma FlushedIsApplied(c: W.Config, threadCount: nat, r: Joint, n: nat, t: nat, i: nat, p: nat, op: W.Op)
    requires S.Run(c, threadCount, r.states, r.actions) && FlushedInsert(r, n, t, i, p, op)
    ensures i < c.Lanes() && p < |r.states[n].lanes[i].applied| && r.states[n].lanes[i].applied[p] == op
  {
    hide W.TokenAt, W.BytesAt, W.FlushInv;
    var s := r.states[n];
    var l := s.lanes[i];
    S.RunInv(c, threadCount, r.states, r.actions, n);
    assert S.StepAt(c, r.states, r.actions, n);
    var k := S.FlushCoversEarlierWork(c, s, t, i);
    var b := W.Barrier(s.threads[t].flush);
    var m :| 0 <= m < |l.sent[p..]| && l.sent[p..][m] == b;
    assert l.sent[p + m] == b && p + m == k && p < k;
    assert l.sent[..k][p] == l.finished[p];
    assert W.OrderAt(s, i);
  }

  /** Read your writes: when a flush returns, every insert a lane accepted before the flush's barrier has
      been executed, and a lookup finds its entry, unless the eviction for an insert of the same tenant,
      at its own execution or later, took it or a later insert replaced it. */
  lemma ReadYourWrites(
    plan: Plan, c: W.Config, threadCount: nat, r: Joint, n: nat, t: nat, i: nat, p: nat, op: W.Op) returns (x: nat)
    requires Run(plan, c, threadCount, r) && FlushedInsert(r, n, t, i, p, op) && op.Insert?
    ensures x < n && r.actions[x] == W.WriterStep && r.states[x].writer == W.Running(i, op)
    ensures |r.states| == |r.contents| == |r.actions| + 1 && |r.times| == |r.actions| && plan.Valid()
    ensures Holds(r.contents[n], r.write(op.id)) || exists y :: x <= y < n && Displaces(plan, r, y, r.write(op.id))
  {
    hide Run, Displaces, Holds, FlushedInsert, StoreStep;
    RunLengths(plan, c, threadCount, r);
    assert n < |r.actions| && i < |r.states[n].lanes| by { FlushedInRange(r, n, t, i, p, op); }
    FlushedIsApplied(c, threadCount, r, n, t, i, p, op);
    x := AppliedWasExecuted(c, threadCount, r.states, r.actions, n, i, p);
    ExecutingHoldsOrDisplaces(plan, c, threadCount, r, x, i, op);
    if Holds(r.contents[x + 1], r.write(op.id)) {
      HeldOrDisplaced(plan, c, threadCount, r, x + 1, n, r.write(op.id));
    }
  }

  lemma FlushedInRange(r: Joint, n: nat, t: nat, i: nat, p: nat, op: W.Op)
    requires FlushedInsert(r, n, t, i, p, op)
    ensures n < |r.actions| < |r.states| && i < |r.states[n].lanes|
  {
  }

  lemma ExecutingHoldsOrDisplaces(plan: Plan, c: W.Config, threadCount: nat, r: Joint, x: nat, i: nat, op: W.Op)
    requires Run(plan, c, threadCount, r) && x < |r.actions| && op.Insert?
    requires r.actions[x] == W.WriterStep && r.states[x].writer == W.Running(i, op)
    ensures Holds(r.contents[x + 1], r.write(op.id)) || Displaces(plan, r, x, r.write(op.id))
  {
    hide EvictedTo, W.Step, W.Inv, Admitted;
    ExecutingEvicts(plan, c, threadCount, r, x);
  }

  /** A step executes an insert of tenant t. */
  ghost predicate InsertsFor(r: Joint, y: nat, t: TenantId)
    requires y < |r.actions| < |r.states|
  {
    var id := Executed(r.states[y], r.actions[y]);
    id.Some? && r.write(id.value).key.tenant == t
  }

  /** A write that was unexpired and newer than its tenant's other entries when executed is found as long
      as no other insert of its tenant is executed. */
  lemma LastWriteIsFound(plan: Plan, c: W.Config, threadCount: nat, r: Joint, x: nat, n: nat, i: nat, op: W.Op)
    requires Run(plan, c, threadCount, r) && x < n < |r.states| && op.Insert?
    requires r.actions[x] == W.WriterStep && r.states[x].writer == W.Running(i, op)
    requires var w := r.write(op.id);
             && !w.entry.Expired(r.times[x])
             && (forall k :: k in r.contents[x] && k != w.key && k.tenant == w.key.tenant ==>
                   r.contents[x][k].insertedAt < w.entry.insertedAt)
    requires forall y :: x < y < n ==> !InsertsFor(r, y, r.write(op.id).key.tenant)
    ensures Holds(r.contents[n], r.write(op.id))
  {
    hide Run, EvictedTo, W.Step, W.Inv, StoreStep;
    RunLengths(plan, c, threadCount, r);
    var w := r.write(op.id);
    ExecutingEvicts(plan, c, threadCount, r, x);
    NewestInsertSurvives(
      r.contents[x], w.key, w.entry, r.times[x], plan.storage[plan.Index(w.key.tenant)], r.contents[x + 1]);
    HeldOrDisplaced(plan, c, threadCount, r, x + 1, n, w);
    assert forall y :: x < y < n && Displaces(plan, r, y, w) ==> InsertsFor(r, y, w.key.tenant);
  }

  // --- Lifetimes over runs ---------------------------------------------------------------------

  /** Step x executed the write w. */
  ghost predicate Wrote(r: Joint, x: nat, w: Write)
    requires x < |r.actions| < |r.states|
  {
    var id := Executed(r.states[x], r.actions[x]);
    id.Some? && r.write(id.value) == w
  }

  lemma EntryStaysOrIsWritten(plan: Plan, c: W.Config, threadCount: nat, r: Joint, y: nat, key: CacheKey)
    requires Run(plan, c, threadCount, r) && y < |r.actions| && key in r.contents[y + 1]
    ensures || (key in r.contents[y] && r.contents[y][key] == r.contents[y + 1][key])
            || Wrote(r, y, Write(key, r.contents[y + 1][key]))
  {
    hide Run, EvictedTo;
    RunLengths(plan, c, threadCount, r);
    if Executed(r.states[y], r.actions[y]).Some? {
      ExecutingEvicts(plan, c, threadCount, r, y);
      var w := r.write(Executed(r.states[y], r.actions[y]).value);
      EvictedIsSubMap(r.contents[y][w.key := w.entry], w.key.tenant, r.times[y],
                      plan.storage[plan.Index(w.key.tenant)], r.contents[y + 1]);
    } else {
      OtherStepsKeepStore(plan, c, threadCount, r, y);
    }
  }

  lemma OtherStepsKeepStore(plan: Plan, c: W.Config, threadCount: nat, r: Joint, y: nat)
    requires Run(plan, c, threadCount, r) && y < |r.actions| && Executed(r.states[y], r.actions[y]).None?
    ensures r.contents[y + 1] == r.contents[y]
  {
    hide W.Step, W.Inv, EvictedTo, Admitted;
    assert StoreStep(plan, r, y);
  }

  lemma EvictedIsSubMap(full: Contents, t: TenantId, now: nat, budget: nat, after: Contents)
    requires EvictedTo(full, t, now, budget, after)
    ensures SubMap(after, full)
  {
  }

  lemma StartsWithNothing(plan: Plan, c: W.Config, threadCount: nat, r: Joint)
    requires Run(plan, c, threadCount, r)
    ensures |r.contents| > 0 && r.contents[0] == map[]
  {
  }

  lemma {:induction false} EntriesWereWritten(
    plan: Plan, c: W.Config, threadCount: nat, r: Joint, n: nat, key: CacheKey) returns (x: nat)
    requires Run(plan, c, threadCount, r) && n < |r.states| == |r.contents| && key in r.contents[n]
    ensures x < n && x < |r.actions| && Wrote(r, x, Write(key, r.contents[n][key]))
    decreases n
  {
    hide Run, Wrote;
    RunLengths(plan, c, threadCount, r);
    StartsWithNothing(plan, c, threadCount, r);
    EntryStaysOrIsWritten(plan, c, threadCount, r, n - 1, key);
    if Wrote(r, n - 1, Write(key, r.contents[n][key])) {
      x := n - 1;
    } else {
      x := EntriesWereWritten(plan, c, threadCount, r, n - 1, key);
    }
  }

  /** Whatever a lookup finds, at any time in any run, was executed earlier as a write of exactly that key,
      and its age is below the lifetime it was written with: nothing stale is ever served. */
  lemma NothingStaleIsServed(
    plan: Plan, c: W.Config, threadCount: nat, r: Joint, n: nat, key: CacheKey, now: nat) returns (x: nat)
    requires Run(plan, c, threadCount, r) && n < |r.states| == |r.contents|
    requires Found(r.contents[n], key, now).Some?
    ensures x < n && x < |r.actions|
    ensures var e := Found(r.contents[n], key, now).value;
            Wrote(r, x, Write(key, e)) && now < e.insertedAt + e.ttl && now < U64_MAX
  {
    hide Run, Wrote;
    RunLengths(plan, c, threadCount, r);
    FoundWhileYoung(r.contents[n], key, now);
    x := EntriesWereWritten(plan, c, threadCount, r, n, key);
  }

  /** And while it is held and young it is found. */
  lemma HeldIsFound(m: Contents, w: Write, now: nat)
    requires Holds(m, w)
    ensures Found(m, w.key, now) == Some(w.entry) <==> now < w.entry.insertedAt + w.entry.ttl && now < U64_MAX
  {
    FoundWhileYoung(m, w.key, now);
  }

  /** A write that takes its tenant over its share leaves none of the tenant's entries whose age has
      reached its lifetime, and takes a younger one only if the younger ones alone are over the share. */
  lemma ExecutionDropsAgedFirst(plan: Plan, c: W.Config, threadCount: nat, r: Joint, y: nat)
    requires Run(plan, c, threadCount, r) && y < |r.actions| && Executed(r.states[y], r.actions[y]).Some?
    ensures |r.states| == |r.contents| == |r.actions| + 1 && |r.times| == |r.actions| && plan.Valid()
    ensures var w := r.write(Executed(r.states[y], r.actions[y]).value);
            && plan.Registered(w.key.tenant)
            && var full, after := r.contents[y][w.key := w.entry], r.contents[y + 1];
               var share := plan.storage[plan.Index(w.key.tenant)];
               && (Usage(full, w.key.tenant) > share ==>
                     forall k :: k in after && k.tenant == w.key.tenant ==> !Aged(after[k], r.times[y]))
               && ((exists k :: k in Young(full, w.key.tenant, r.times[y]) && k !in after) ==>
                     CostOf(full, Young(full, w.key.tenant, r.times[y])) > share)
  {
    hide Run, Usage, CostOf, Young, Aged;
    ExecutingEvicts(plan, c, threadCount, r, y);
    var w := r.write(Executed(r.states[y], r.actions[y]).value);
    AgedGoFirst(r.contents[y][w.key := w.entry], w.key.tenant, r.times[y],
                plan.storage[plan.Index(w.key.tenant)], r.contents[y + 1]);
  }

  // --- The envelope over runs ------------------------------------------------------------------

  lemma StoreStepKeepsShares(plan: Plan, r: Joint, k: nat)
    requires plan.Valid() && k < |r.actions| == |r.times| && |r.states| == |r.contents| == |r.actions| + 1
    requires StoreStep(plan, r, k) && WithinShares(plan, r.contents[k])
    ensures WithinShares(plan, r.contents[k + 1])
  {
    hide EvictedTo, WithinShares;
    var id := Executed(r.states[k], r.actions[k]);
    if id.Some? {
      var w, before, after := r.write(id.value), r.contents[k], r.contents[k + 1];
      if plan.Registered(w.key.tenant) && !OversizeForStore(plan, w.key.tenant, |w.entry.body|, |w.entry.model|) {
        var t := plan.Index(w.key.tenant);
        EvictionFits(before[w.key := w.entry], w.key.tenant, r.times[k], plan.storage[t], after);
        EvictionIsIsolated(before, w.key, w.entry, r.times[k], plan.storage[t], after,
            w.key.(tenant := w.key.tenant + 1));
        SharesAfter(plan, before, after, t);
      }
    }
  }

  lemma EmptyIsWithinShares(plan: Plan)
    requires plan.Valid()
    ensures WithinShares(plan, map[])
  {
    var none: Contents := map[];
    forall t ensures Usage(none, t) == 0 { assert OfTenant(none, t) == {}; }
  }

  lemma {:induction false} RunKeepsShares(plan: Plan, c: W.Config, threadCount: nat, r: Joint, n: nat)
    requires Run(plan, c, threadCount, r) && n < |r.states|
    ensures WithinShares(plan, r.contents[n])
  {
    hide WithinShares, StoreStep;
    if n == 0 {
      EmptyIsWithinShares(plan);
    } else {
      RunKeepsShares(plan, c, threadCount, r, n - 1);
      assert StoreStep(plan, r, n - 1);
      StoreStepKeepsShares(plan, r, n - 1);
    }
  }

  /** In every state of every joint run, stored and queued bytes together are within the budget. */
  lemma RunWithinEnvelope(plan: Plan, c: W.Config, threadCount: nat, r: Joint, n: nat)
    requires Run(plan, c, threadCount, r) && n < |r.states|
    ensures Sum(StoredBytes(plan, r.contents[n])) + Sum(QueuedBytes(r.states[n])) <= plan.budget
  {
    hide WithinShares, StoreStep, StoredBytes, QueuedBytes, Sum, W.Inv;
    RunKeepsShares(plan, c, threadCount, r, n);
    S.RunInv(c, threadCount, r.states, r.actions, n);
    EnvelopeHolds(plan, r.contents[n], c, r.states[n]);
  }
}
