/** What the scheduler of module WriterLanes guarantees over every interleaving, and exactly where
    one of its promises ("a stale token is harmless") breaks. */
module WriterSafety {
  import opened Prelude
  import opened WriterLanes

  // --- Runs ------------------------------------------------------------------------------------

  /** `states` is a run of the scheduler from its initial state under `actions`. */
  ghost predicate Run(c: Config, threadCount: nat, states: seq<State>, actions: seq<Action>) {
    && |states| == |actions| + 1
    && states[0] == Init(c, threadCount)
    && (forall k :: 0 <= k < |actions| ==> StepAt(c, states, actions, k))
  }

  ghost predicate StepAt(c: Config, states: seq<State>, actions: seq<Action>, k: nat)
    requires |states| == |actions| + 1 && k < |actions|
  {
    InRange(c, states[k]) && Step(c, states[k], actions[k]) == Some(states[k + 1])
  }

  lemma {:induction false} RunInv(c: Config, threadCount: nat, states: seq<State>, actions: seq<Action>, k: nat)
    requires Run(c, threadCount, states, actions) && k < |states|
    ensures Inv(c, states[k])
  {
    if k == 0 {
      InitInv(c, threadCount);
    } else {
      RunInv(c, threadCount, states, actions, k - 1);
      assert StepAt(c, states, actions, k - 1);
      StepKeepsInv(c, states[k - 1], actions[k - 1], states[k]);
    }
  }

  // --- The ready queue never fills -------------------------------------------------------------

  lemma {:induction false} CountPositive(q: seq<nat>, k: nat)
    requires k < |q|
    ensures Count(q, q[k]) >= 1
  {
    if k > 0 {
      CountPositive(q[1..], k - 1);
    }
  }

  lemma {:induction false} DistinctElements(q: seq<nat>, n: nat) returns (seen: set<nat>)
    requires forall k :: 0 <= k < |q| ==> q[k] < n && Count(q, q[k]) <= 1
    ensures |seen| == |q| && (forall x :: x in seen ==> x in q) && forall x :: x in seen ==> x < n
  {
    if q == [] {
      seen := {};
    } else {
      forall k | 0 <= k < |q[1..]| ensures q[1..][k] < n && Count(q[1..], q[1..][k]) <= 1 {
        assert q[1..][k] == q[k + 1];
        assert Count(q, q[k + 1]) <= 1;
      }
      var rest := DistinctElements(q[1..], n);
      if q[0] in q[1..] {
        var k :| 0 <= k < |q[1..]| && q[1..][k] == q[0];
        CountPositive(q[1..], k);
        assert false;
      }
      seen := rest + {q[0]};
    }
  }

  lemma {:induction false} BoundedSet(xs: set<nat>, n: nat)
    requires forall x :: x in xs ==> x < n
    ensures |xs| <= n
  {
    if n == 0 {
      assert xs == {};
    } else {
      BoundedSet(xs - {n - 1}, n - 1);
    }
  }

  lemma AtMostOneEach(q: seq<nat>, n: nat)
    requires forall k :: 0 <= k < |q| ==> q[k] < n
    requires forall i :: 0 <= i < n ==> Count(q, i) <= 1
    ensures |q| <= n
  {
    var seen := DistinctElements(q, n);
    BoundedSet(seen, n);
  }

  /** At most one token per lane is ever outstanding, so a send into the ready queue of capacity
      lanes + 1 never finds it full. */
  lemma ReadyNeverFills(c: Config, s: State)
    requires Inv(c, s)
    ensures |s.ready| <= c.Lanes()
    ensures |s.localReady| <= c.Lanes()
  {
    forall i | 0 <= i < c.Lanes() ensures Count(s.ready, i) <= 1 && Count(s.localReady, i) <= 1 {
      assert TokenAt(s, i);
    }
    AtMostOneEach(s.ready, c.Lanes());
    AtMostOneEach(s.localReady, c.Lanes());
  }

  // --- No lost work ----------------------------------------------------------------------------

  predicate HasWork(l: Lane) { l.pending.Some? || l.queue != [] }

  /** Someone will still look at the lane: its token exists, a thread is between its send and its
      compare-exchange, or the writer is inside `finish_turn`'s recheck window. */
  ghost predicate Attended(s: State, i: nat)
    requires i < |s.lanes|
  {
    || s.lanes[i].scheduled
    || HeldByAll(s.threads, Unscheduled, i) > 0
    || ((s.writer.Rechecking? || s.writer.Rearming?) && s.writer.lane == i)
  }

  ghost predicate NoLostAt(s: State, i: nat)
    requires i < |s.lanes|
  {
    HasWork(s.lanes[i]) ==> Attended(s, i)
  }

  ghost predicate NoLostWork(s: State) {
    forall i :: 0 <= i < |s.lanes| ==> NoLostAt(s, i)
  }

  /** The one step that loses work: the writer read Empty in `take_ready`, an operation arrived
      meanwhile and its sender already lost the compare-exchange, and now the writer clears the bit. */
  ghost predicate Strands(s: State, action: Action) {
    && action.WriterStep? && s.writer.Stale? && s.writer.lane < |s.lanes|
    && s.lanes[s.writer.lane].queue != []
    && HeldByAll(s.threads, Unscheduled, s.writer.lane) == 0
  }

  lemma FinishOrRunKeepsWork(c: Config, s: State, s': State, i: nat)
    requires Inv(c, s) && i < c.Lanes() && NoLostAt(s, i) && WriterNext(s) == Some(s')
    requires !(s.writer.Collecting? || s.writer.Popping? || s.writer.Blocked? || s.writer.Took? || s.writer.Stale?)
    ensures i < |s'.lanes| && NoLostAt(s', i)
  {
    assert OrderAt(s, i);
  }

  lemma TakeKeepsWork(c: Config, s: State, s': State, i: nat)
    requires Inv(c, s) && i < c.Lanes() && NoLostAt(s, i) && WriterNext(s) == Some(s')
    requires s.writer.Collecting? || s.writer.Popping? || s.writer.Blocked? || s.writer.Took?
    ensures i < |s'.lanes| && NoLostAt(s', i)
  {
  }

  lemma StaleClear(c: Config, s: State, s': State, i: nat)
    requires Inv(c, s) && i < c.Lanes() && NoLostAt(s, i) && WriterNext(s) == Some(s') && s.writer.Stale?
    ensures i < |s'.lanes| && (NoLostAt(s', i) <==> !(i == s.writer.lane && Strands(s, WriterStep)))
  {
    assert OrderAt(s, s.writer.lane);
  }

  lemma ScheduleKeepsWork(c: Config, s: State, t: nat, s': State, i: nat)
    requires i < |s.lanes| && NoLostAt(s, i) && |s.ready| <= |s.lanes|
    requires t < |s.threads| && ProducerInRange(s.threads[t], |s.lanes|) && (s.threads[t].Sent? || s.threads[t].Won?)
    requires s.threads[t].Won? ==> s.lanes[s.threads[t].lane].scheduled
    requires ScheduleNext(s, t) == Some(s')
    ensures i < |s'.lanes| && NoLostAt(s', i)
  {
    HeldUpdate(s.threads, t, s'.threads[t], Unscheduled, i);
  }

  lemma SendKeepsWork(c: Config, s: State, t: nat, s': State, i: nat)
    requires i < |s.lanes| == c.Lanes() && NoLostAt(s, i)
    requires t < |s.threads| && ProducerInRange(s.threads[t], |s.lanes|) && !s.threads[t].Sent? && !s.threads[t].Won?
    requires ThreadNext(c, s, t) == Some(s')
    ensures i < |s'.lanes| && NoLostAt(s', i)
  {
    HeldUpdate(s.threads, t, s'.threads[t], Unscheduled, i);
    HeldAtLeast(s'.threads, t, Unscheduled, i);
  }

  lemma ThreadKeepsWork(c: Config, s: State, t: nat, s': State, i: nat)
    requires Inv(c, s) && i < c.Lanes() && NoLostAt(s, i)
    requires t < |s.threads| && ThreadNext(c, s, t) == Some(s')
    ensures i < |s'.lanes| && NoLostAt(s', i)
  {
    if s.threads[t].Sent? || s.threads[t].Won? {
      ReadyNeverFills(c, s);
      if s.threads[t].Won? {
        HeldAtLeast(s.threads, t, Token, s.threads[t].lane);
        assert TokenAt(s, s.threads[t].lane);
      }
      ScheduleKeepsWork(c, s, t, s', i);
    } else {
      SendKeepsWork(c, s, t, s', i);
    }
  }

  lemma StepKeepsWorkAt(c: Config, s: State, action: Action, s': State, i: nat)
    requires Inv(c, s) && i < c.Lanes() && NoLostAt(s, i) && Step(c, s, action) == Some(s')
    ensures i < |s'.lanes| && (NoLostAt(s', i) <==> !(Strands(s, action) && i == s.writer.lane))
  {
    match action {
      case WriterStep =>
        if s.writer.Stale? {
          StaleClear(c, s, s', i);
        } else if s.writer.Collecting? || s.writer.Popping? || s.writer.Blocked? || s.writer.Took? {
          TakeKeepsWork(c, s, s', i);
        } else {
          FinishOrRunKeepsWork(c, s, s', i);
        }
      case Advance(t) =>
        ThreadKeepsWork(c, s, t, s', i);
      case _ =>
        HeldUpdate(s.threads, action.thread, s'.threads[action.thread], Unscheduled, i);
    }
  }

  /** Exactly one kind of step can turn a state without lost work into one with lost work. */
  lemma LosesWorkIffStrands(c: Config, s: State, action: Action, s': State)
    requires Inv(c, s) && NoLostWork(s) && Step(c, s, action) == Some(s')
    ensures NoLostWork(s') <==> !Strands(s, action)
  {
    forall i | 0 <= i < c.Lanes()
      ensures |s'.lanes| == c.Lanes() && (NoLostAt(s', i) <==> !(Strands(s, action) && i == s.writer.lane))
    {
      assert NoLostAt(s, i);
      StepKeepsWorkAt(c, s, action, s', i);
      StepKeepsInv(c, s, action, s');
    }
    StepKeepsInv(c, s, action, s');
    if Strands(s, action) {
      assert !NoLostAt(s', s.writer.lane);
    }
  }

  /** No lost work in any reachable interleaving whose `take_ready` never clears the bit of a lane
      that was refilled, and given up on, after the Empty read. */
  lemma {:induction false} NoLostWorkInRuns(
    c: Config, threadCount: nat, states: seq<State>, actions: seq<Action>, k: nat)
    requires Run(c, threadCount, states, actions) && k < |states|
    requires forall j :: 0 <= j < k ==> !Strands(states[j], actions[j])
    ensures NoLostWork(states[k])
  {
    if k > 0 {
      NoLostWorkInRuns(c, threadCount, states, actions, k - 1);
      RunInv(c, threadCount, states, actions, k - 1);
      assert StepAt(c, states, actions, k - 1);
      LosesWorkIffStrands(c, states[k - 1], actions[k - 1], states[k]);
    }
  }

  // --- Nothing is left behind when nobody can move ----------------------------------------------

  /** No thread inside an operation, and not the writer either, can take a step. */
  ghost predicate Stuck(c: Config, s: State)
    requires InRange(c, s)
  {
    WriterNext(s).None? && forall t :: 0 <= t < |s.threads| ==> ThreadNext(c, s, t).None?
  }

  ghost predicate Drained(l: Lane) {
    !HasWork(l) && l.finished == l.applied == l.sent && l.queuedBytes == 0
  }

  lemma StuckLaneHasNoWork(c: Config, s: State, i: nat)
    requires Inv(c, s) && NoLostWork(s) && Stuck(c, s) && i < c.Lanes()
    ensures !HasWork(s.lanes[i]) && s.lanes[i].finished == s.lanes[i].applied == s.lanes[i].sent
  {
    assert NoLostAt(s, i) && TokenAt(s, i) && OrderAt(s, i);
    forall t | 0 <= t < |s.threads|
      ensures Held(s.threads[t], Unscheduled, i) == 0 && Held(s.threads[t], Token, i) == 0
    {
      assert ThreadNext(c, s, t).None?;
    }
    HeldByNobody(s.threads, Unscheduled, i);
    HeldByNobody(s.threads, Token, i);
  }

  lemma {:induction false} RangeSize(n: nat) returns (all: set<nat>)
    ensures (forall i: nat :: i in all <==> i < n) && |all| == n
  {
    if n == 0 {
      all := {};
    } else {
      var fewer := RangeSize(n - 1);
      all := fewer + {n - 1};
    }
  }

  lemma StuckThreadIsIdle(c: Config, s: State, t: nat)
    requires c.Valid() && Inv(c, s) && NoLostWork(s) && Stuck(c, s) && t < |s.threads|
    ensures s.threads[t].Idle?
  {
    forall i | 0 <= i < c.Lanes() ensures !HasWork(s.lanes[i]) && s.lanes[i].applied == s.lanes[i].sent {
      StuckLaneHasNoWork(c, s, i);
    }
    assert ThreadNext(c, s, t).None? && ProgressInv(s, s.threads[t]);
    if s.threads[t].Awaiting? {
      var f := s.threads[t].flush;
      var all := RangeSize(c.Lanes());
      assert AckedLanes(s.lanes, f) == all;
    }
  }

  /** The scheduler cannot deadlock: as long as no work was lost, a state where nobody can move has
      every thread idle, every accepted operation executed in order, and every byte released. */
  lemma StuckMeansDrained(c: Config, s: State)
    requires c.Valid() && Inv(c, s) && NoLostWork(s) && Stuck(c, s)
    ensures forall t :: 0 <= t < |s.threads| ==> s.threads[t].Idle?
    ensures forall i :: 0 <= i < |s.lanes| ==> Drained(s.lanes[i])
  {
    forall t | 0 <= t < |s.threads| ensures s.threads[t].Idle? {
      StuckThreadIsIdle(c, s, t);
    }
    forall i | 0 <= i < |s.lanes| ensures Drained(s.lanes[i]) {
      StuckLaneHasNoWork(c, s, i);
      HeldByNobody(s.threads, Bytes, i);
      assert BytesAt(c, s, i);
    }
  }

  // --- Flush -----------------------------------------------------------------------------------

  /** When a flush returns, each lane holds its barrier exactly once, and everything the lane accepted
      before it has been executed and released. */
  lemma FlushCoversEarlierWork(c: Config, s: State, t: nat, i: nat) returns (k: nat)
    requires Inv(c, s) && t < |s.threads| && s.threads[t].Awaiting? && ThreadNext(c, s, t).Some? && i < c.Lanes()
    ensures k < |s.lanes[i].sent| && s.lanes[i].sent[k] == Barrier(s.threads[t].flush)
    ensures forall m :: 0 <= m < |s.lanes[i].sent| && m != k ==> s.lanes[i].sent[m] != Barrier(s.threads[t].flush)
    ensures s.lanes[i].sent[..k] <= s.lanes[i].finished
  {
    var f, l := s.threads[t].flush, s.lanes[i];
    var all := RangeSize(c.Lanes());
    assert s.acks[f] == |AckedLanes(s.lanes, f)|;
    assert AckedLanes(s.lanes, f) <= all;
    if i !in AckedLanes(s.lanes, f) {
      BoundedBySubset(AckedLanes(s.lanes, f), all - {i});
    }
    k :| 0 <= k < |l.applied| && l.applied[k] == Barrier(f);
    assert OrderAt(s, i) && BarriersOnce(l.sent, |s.acks|);
    assert l.applied <= l.sent;
  }

  lemma {:induction false} BoundedBySubset(a: set<nat>, b: set<nat>)
    requires a <= b
    ensures |a| <= |b|
  {
    if a != {} {
      var x :| x in a;
      BoundedBySubset(a - {x}, b - {x});
    }
  }

  // --- Order and bounded overtaking -------------------------------------------------------------

  function IndexOf(q: seq<nat>, i: nat): nat {
    if q == [] || q[0] == i then 0 else 1 + IndexOf(q[1..], i)
  }

  lemma {:induction false} IndexOfAppend(q: seq<nat>, j: nat, i: nat)
    requires i in q
    ensures IndexOf(q + [j], i) == IndexOf(q, i) < |q|
  {
    if q[0] != i {
      assert (q + [j])[1..] == q[1..] + [j];
      IndexOfAppend(q[1..], j, i);
    }
  }

  /** Turns that may execute before the queued token of lane i is popped. */
  function Ahead(s: State, i: nat): nat {
    IndexOf(s.localReady, i) + if s.writer.Took? || s.writer.Stale? || s.writer.Running? then 1 else 0
  }

  function Executes(s: State, action: Action): nat {
    if action.WriterStep? && s.writer.Running? then 1 else 0
  }

  lemma MemberCounts(q: seq<nat>, i: nat)
    ensures i in q ==> Count(q, i) > 0
  {
    if i in q {
      var k :| 0 <= k < |q| && q[k] == i;
      CountPositive(q, k);
    }
  }

  /** A lane's token is in the writer's FIFO only once. */
  lemma PoppedIsGone(c: Config, s: State)
    requires Inv(c, s) && s.localReady != []
    ensures s.localReady[0] !in s.localReady[1..]
  {
    var i := s.localReady[0];
    assert i < c.Lanes() && TokenAt(s, i);
    MemberCounts(s.localReady[1..], i);
  }

  lemma StepKeepsPlace(c: Config, s: State, action: Action, s': State, i: nat)
    requires Inv(c, s) && Step(c, s, action) == Some(s') && i < c.Lanes() && i in s.localReady
    ensures i in s'.localReady ==> Executes(s, action) + Ahead(s', i) <= Ahead(s, i)
    ensures i !in s'.localReady ==> s'.writer == Took(i) && Executes(s, action) == 0
  {
    if action.Advance? {
      ThreadKeepsRange(c, s, action.thread, s');
    }
    if action.WriterStep? {
      if s.ready != [] { IndexOfAppend(s.localReady, s.ready[0], i); }
      if s.writer.Finishing? || s.writer.Rearming? { IndexOfAppend(s.localReady, s.writer.lane, i); }
      if s.writer.Popping? {
        PoppedIsGone(c, s);
      }
    }
  }

  lemma AheadIsBounded(c: Config, s: State, i: nat)
    requires Inv(c, s) && i < c.Lanes() && i in s.localReady
    ensures Ahead(s, i) <= c.Lanes() - 1
  {
    IndexOfAppend(s.localReady, 0, i);
    var hand := if s.writer.Took? || s.writer.Stale? || s.writer.Running? then [s.writer.lane] else [];
    var q := hand + s.localReady;
    assert hand != [] ==> q[1..] == s.localReady;
    assert hand == [] ==> q == s.localReady;
    forall j | 0 <= j < c.Lanes() ensures Count(q, j) <= 1 {
      assert TokenAt(s, j);
    }
    AtMostOneEach(q, c.Lanes());
  }

  ghost function Executions(states: seq<State>, actions: seq<Action>, a: nat, b: nat): nat
    requires a <= b <= |actions| <= |states|
    decreases b
  {
    if a == b then 0 else Executions(states, actions, a, b - 1) + Executes(states[b - 1], actions[b - 1])
  }

  lemma RunStepKeepsPlace(c: Config, threadCount: nat, states: seq<State>, actions: seq<Action>, i: nat, k: nat)
    requires Run(c, threadCount, states, actions) && k < |actions| && i < c.Lanes() && i in states[k].localReady
    ensures i in states[k + 1].localReady ==>
              Executes(states[k], actions[k]) + Ahead(states[k + 1], i) <= Ahead(states[k], i)
    ensures i !in states[k + 1].localReady ==> states[k + 1].writer == Took(i) && Executes(states[k], actions[k]) == 0
  {
    assert StepAt(c, states, actions, k);
    RunInv(c, threadCount, states, actions, k);
    StepKeepsPlace(c, states[k], actions[k], states[k + 1], i);
  }

  lemma {:induction false} PlaceOverRun(
    c: Config, threadCount: nat, states: seq<State>, actions: seq<Action>, i: nat, a: nat, b: nat)
    requires Run(c, threadCount, states, actions) && a <= b < |states| && i < c.Lanes()
    requires forall k :: a <= k <= b ==> i in states[k].localReady
    ensures Executions(states, actions, a, b) + Ahead(states[b], i) <= Ahead(states[a], i)
    decreases b
  {
    if a < b {
      PlaceOverRun(c, threadCount, states, actions, i, a, b - 1);
      RunStepKeepsPlace(c, threadCount, states, actions, i, b - 1);
    }
  }

  /** Bounded overtaking: from the moment lane i's token is in the writer's FIFO until it is popped,
      at most lanes - 1 operations run. */
  lemma BoundedOvertaking(c: Config, threadCount: nat, states: seq<State>, actions: seq<Action>, i: nat, a: nat, b: nat)
    requires Run(c, threadCount, states, actions) && a < b < |states| && i < c.Lanes()
    requires forall k :: a <= k < b ==> i in states[k].localReady
    requires i !in states[b].localReady
    ensures Executions(states, actions, a, b) <= c.Lanes() - 1 && states[b].writer == Took(i)
  {
    PlaceOverRun(c, threadCount, states, actions, i, a, b - 1);
    RunInv(c, threadCount, states, actions, a);
    AheadIsBounded(c, states[a], i);
    RunStepKeepsPlace(c, threadCount, states, actions, i, b - 1);
  }

  /** A popped lane with work runs its oldest unfinished operation next: each lane is served in send order. */
  lemma TurnRunsOldest(c: Config, s: State, s': State, i: nat)
    requires Inv(c, s) && s.writer == Took(i) && HasWork(s.lanes[i]) && WriterNext(s) == Some(s')
    ensures |s.lanes[i].finished| < |s.lanes[i].sent|
    ensures s'.writer == Running(i, s.lanes[i].sent[|s.lanes[i].finished|])
  {
    assert OrderAt(s, i);
  }

  /** Neither release of reserved bytes, the drop of an executed insert nor that of one a full lane gave
      back, takes more than the counter holds: its `fetch_sub` never wraps. */
  lemma ReleasesNeverUnderflow(c: Config, s: State)
    requires Inv(c, s)
    ensures s.writer.Releasing? ==> Cost(s.writer.op) <= s.lanes[s.writer.lane].queuedBytes
    ensures forall t :: 0 <= t < |s.threads| && s.threads[t].Returning? ==>
              s.threads[t].cost <= s.lanes[s.threads[t].lane].queuedBytes
  {
    hide HeldByAll, TotalCost, TokenAt, FlushInv;
    if s.writer.Releasing? {
      var i, op := s.writer.lane, s.writer.op;
      assert OrderAt(s, i) && BytesAt(c, s, i);
      var l := s.lanes[i];
      TotalCostAppend(l.finished, op);
      assert l.sent == (l.finished + [op]) + (PendingOps(l) + l.queue);
      TotalCostPrefix(l.finished + [op], PendingOps(l) + l.queue);
    }
    forall t | 0 <= t < |s.threads| && s.threads[t].Returning?
      ensures s.threads[t].cost <= s.lanes[s.threads[t].lane].queuedBytes
    {
      var i := s.threads[t].lane;
      assert ProducerInRange(s.threads[t], c.Lanes()) && OrderAt(s, i) && BytesAt(c, s, i);
      FinishedIsPaid(s, i);
      HeldAtLeast(s.threads, t, Bytes, i);
    }
  }
}
