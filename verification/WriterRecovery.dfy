/** What becomes of lost work, and how long a lane waits from the moment its token is sent. */
module WriterRecovery {
  import opened Prelude
  import opened WriterLanes
  import opened WriterSafety

  // --- Lost work -------------------------------------------------------------------------------

  /** The step is a channel accepting an operation on lane i. */
  predicate Accepts(c: Config, s: State, action: Action, i: nat)
    requires i < |s.lanes|
  {
    action.Advance? && action.thread < |s.threads| && |s.lanes[i].queue| < c.laneCapacity &&
    var p := s.threads[action.thread];
    (p.Reserved? && p.lane == i) || (p.Flushing? && p.next == i)
  }

  lemma StrandedLane(c: Config, s: State, i: nat)
    requires Inv(c, s) && i < c.Lanes() && !NoLostAt(s, i)
    ensures HasWork(s.lanes[i]) && !s.lanes[i].scheduled && HeldByAll(s.threads, Unscheduled, i) == 0
    ensures i !in s.ready && i !in s.localReady && Hand(s.writer, i) == 0
    ensures !((s.writer.Rechecking? || s.writer.Rearming?) && s.writer.lane == i)
    ensures forall t :: 0 <= t < |s.threads| ==>
        Held(s.threads[t], Token, i) == 0 && Held(s.threads[t], Unscheduled, i) == 0
  {
    assert TokenAt(s, i);
    MemberCounts(s.ready, i);
    MemberCounts(s.localReady, i);
    forall t | 0 <= t < |s.threads|
      ensures Held(s.threads[t], Token, i) == 0 && Held(s.threads[t], Unscheduled, i) == 0
    {
      HeldAtLeast(s.threads, t, Token, i);
      HeldAtLeast(s.threads, t, Unscheduled, i);
    }
  }

  lemma WriterLeavesStranded(c: Config, s: State, s': State, i: nat)
    requires Inv(c, s) && i < c.Lanes() && !NoLostAt(s, i) && WriterNext(s) == Some(s')
    ensures |s'.lanes| == |s.lanes| && s'.lanes[i] == s.lanes[i] && !NoLostAt(s', i)
  {
    hide HeldByAll, TokenAt, OrderAt, BytesAt, FlushInv;
    StrandedLane(c, s, i);
    assert s.writer.Popping? && s.localReady != [] ==> s.localReady[0] != i;
  }

  lemma ThreadOnStranded(c: Config, s: State, t: nat, s': State, i: nat)
    requires Inv(c, s) && i < c.Lanes() && !NoLostAt(s, i) && t < |s.threads| && ThreadNext(c, s, t) == Some(s')
    ensures |s'.lanes| == |s.lanes| && (NoLostAt(s', i) <==> Accepts(c, s, Advance(t), i))
    ensures !Accepts(c, s, Advance(t), i) ==>
              s'.lanes[i].queue == s.lanes[i].queue && s'.lanes[i].pending == s.lanes[i].pending
              && s'.lanes[i].finished == s.lanes[i].finished
  {
    hide HeldByAll, TokenAt, OrderAt, BytesAt, FlushInv;
    StrandedLane(c, s, i);
    HeldUpdate(s.threads, t, s'.threads[t], Unscheduled, i);
  }

  /** Lost work stays lost exactly until the lane accepts its next operation: that step, and no other,
      brings attention back, and until then nothing in the lane moves. */
  lemma LostUntilNextSend(c: Config, s: State, action: Action, s': State, i: nat)
    requires Inv(c, s) && i < c.Lanes() && !NoLostAt(s, i) && Step(c, s, action) == Some(s')
    ensures |s'.lanes| == |s.lanes| && (NoLostAt(s', i) <==> Accepts(c, s, action, i))
    ensures !Accepts(c, s, action, i) ==>
              s'.lanes[i].queue == s.lanes[i].queue && s'.lanes[i].pending == s.lanes[i].pending
              && s'.lanes[i].finished == s.lanes[i].finished
  {
    hide HeldByAll, Inv;
    match action {
      case WriterStep => WriterLeavesStranded(c, s, s', i);
      case Advance(t) => ThreadOnStranded(c, s, t, s', i);
      case _ =>
        HeldUpdate(s.threads, action.thread, s'.threads[action.thread], Unscheduled, i);
    }
  }

  lemma {:induction false} LostOverRun(
    c: Config, threadCount: nat, states: seq<State>, actions: seq<Action>, i: nat, a: nat, b: nat)
    requires Run(c, threadCount, states, actions) && a <= b < |states| && i < c.Lanes()
    requires i < |states[a].lanes| && !NoLostAt(states[a], i)
    requires forall k :: a <= k < b ==> i < |states[k].lanes| && !Accepts(c, states[k], actions[k], i)
    ensures i < |states[b].lanes| && !NoLostAt(states[b], i)
    ensures states[b].lanes[i].finished == states[a].lanes[i].finished
    decreases b
  {
    hide Inv, Step, NoLostAt, Accepts;
    if a < b {
      LostOverRun(c, threadCount, states, actions, i, a, b - 1);
      RunInv(c, threadCount, states, actions, b - 1);
      assert StepAt(c, states, actions, b - 1);
      LostUntilNextSend(c, states[b - 1], actions[b - 1], states[b], i);
    }
  }

  // --- Waiting from the ready queue ------------------------------------------------------------

  /** Operations that may run before lane i's token, still in the ready queue, is popped: one for every
      token ahead of it, one more for a turn in progress, whose lane may be requeued ahead of it. */
  function Waiting(s: State, i: nat): nat {
    |s.localReady| + IndexOf(s.ready, i) +
    match s.writer
    case Popping => if s.localReady != [] then 1 else 0
    case Took(_) => 2
    case Running(_, _) => 2
    case Releasing(_, _) => 1
    case Finishing(_) => 1
    case Clearing(_) => 1
    case Rechecking(j) => if j < |s.lanes| && !s.lanes[j].scheduled then 1 else 0
    case Rearming(j) => if j < |s.lanes| && !s.lanes[j].scheduled then 1 else 0
    case _ => 0
  }

  lemma WriterKeepsWaiting(c: Config, s: State, s': State, i: nat)
    requires Inv(c, s) && WriterNext(s) == Some(s') && i < c.Lanes() && i in s.ready
    ensures i in s'.ready ==> Executes(s, WriterStep) + Waiting(s', i) <= Waiting(s, i)
    ensures i !in s'.ready ==> i in s'.localReady && Executes(s, WriterStep) + Ahead(s', i) <= Waiting(s, i)
  {
    hide TokenAt, OrderAt, BytesAt, FlushInv;
    if (s.writer.Collecting? || s.writer.Blocked?) && s.ready[0] == i {
      NewcomerIsLast(c, s);
    }
  }

  /** A token merged from the ready queue goes behind everything the writer holds. */
  lemma NewcomerIsLast(c: Config, s: State)
    requires Inv(c, s) && s.ready != []
    ensures var i := s.ready[0];
            && IndexOf(s.localReady + [i], i) == |s.localReady| && i in s.localReady + [i]
            && i !in s.ready[1..]
  {
    var i := s.ready[0];
    assert i < c.Lanes() && TokenAt(s, i);
    MemberCounts(s.localReady, i);
    MemberCounts(s.ready[1..], i);
    IndexOfLast(s.localReady, i);
    assert (s.localReady + [i])[|s.localReady|] == i;
  }

  lemma {:induction false} IndexOfLast(q: seq<nat>, i: nat)
    requires i !in q
    ensures IndexOf(q + [i], i) == |q|
  {
    if q != [] {
      assert (q + [i])[1..] == q[1..] + [i];
      IndexOfLast(q[1..], i);
    } else {
      assert (q + [i])[0] == i;
    }
  }

  /** Producers append to the ready queue and set bits; they never clear one while the queue has room. */
  lemma ThreadOnlySchedules(c: Config, s: State, t: nat, s': State)
    requires InRange(c, s) && t < |s.threads| && ThreadNext(c, s, t) == Some(s') && |s.ready| <= |s.lanes|
    ensures s'.writer == s.writer && s'.localReady == s.localReady && |s'.lanes| == |s.lanes|
    ensures s'.ready == s.ready || exists j :: s'.ready == s.ready + [j]
    ensures forall j :: 0 <= j < |s.lanes| && s.lanes[j].scheduled ==> s'.lanes[j].scheduled
  {
  }

  lemma OthersKeepWaiting(c: Config, s: State, action: Action, s': State, i: nat)
    requires Inv(c, s) && Step(c, s, action) == Some(s') && !action.WriterStep? && i in s.ready
    ensures i in s'.ready && Waiting(s', i) <= Waiting(s, i)
  {
    hide TokenAt, OrderAt, BytesAt, FlushInv, ThreadNext;
    if action.Advance? {
      ReadyNeverFills(c, s);
      ThreadOnlySchedules(c, s, action.thread, s');
      if s'.ready != s.ready {
        var j :| s'.ready == s.ready + [j];
        IndexOfAppend(s.ready, j, i);
      }
    }
  }

  /** The tokens ahead of lane i's are those of other lanes, one each. */
  lemma WaitingIsBounded(c: Config, s: State, i: nat)
    requires Inv(c, s) && i < c.Lanes() && i in s.ready
    ensures Waiting(s, i) <= c.Lanes()
  {
    hide OrderAt, BytesAt, FlushInv, HeldByAll;
    var w := s.writer;
    IndexOfAppend(s.ready, 0, i);
    var ahead := s.ready[..IndexOf(s.ready, i)];
    var rearm := (w.Rechecking? || w.Rearming?) && !s.lanes[w.lane].scheduled;
    var hand := if w.Took? || w.Stale? || w.Running? || w.Releasing? || w.Finishing? || w.Clearing? || rearm
                then [w.lane] else [];
    var q := hand + s.localReady + ahead + [i];
    forall j | 0 <= j < c.Lanes() ensures Count(q, j) <= 1 {
      CountOfTokens(c, s, i, j, hand, ahead);
    }
    AtMostOneEach(q, c.Lanes());
  }

  lemma {:induction false} CountConcat(a: seq<nat>, b: seq<nat>, j: nat)
    ensures Count(a + b, j) == Count(a, j) + Count(b, j)
  {
    if a == [] {
      assert a + b == b;
    } else {
      assert (a + b)[1..] == a[1..] + b;
      CountConcat(a[1..], b, j);
    }
  }

  lemma {:induction false} IndexSplits(q: seq<nat>, i: nat)
    requires i in q
    ensures IndexOf(q, i) < |q| && q[..IndexOf(q, i)] + [i] <= q
  {
    if q[0] != i {
      IndexSplits(q[1..], i);
      assert q[..IndexOf(q, i)] == [q[0]] + q[1..][..IndexOf(q[1..], i)];
    }
  }

  lemma CountOfTokens(c: Config, s: State, i: nat, j: nat, hand: seq<nat>, ahead: seq<nat>)
    requires Inv(c, s) && i in s.ready && j < c.Lanes() && IndexOf(s.ready, i) <= |s.ready|
    requires ahead == s.ready[..IndexOf(s.ready, i)]
    requires hand == [] || (|hand| == 1 && (Hand(s.writer, hand[0]) == 1
                || (hand[0] < |s.lanes| && !s.lanes[hand[0]].scheduled)))
    ensures Count(hand + s.localReady + ahead + [i], j) <= 1
  {
    assert TokenAt(s, j);
    IndexSplits(s.ready, i);
    var rest := s.ready[|ahead| + 1..];
    assert s.ready == ahead + [i] + rest;
    CountConcat(ahead + [i], rest, j);
    CountConcat(hand, s.localReady, j);
    CountConcat(hand + s.localReady, ahead + [i], j);
    assert hand + s.localReady + ahead + [i] == (hand + s.localReady) + (ahead + [i]);
    if hand != [] {
      assert hand[1..] == [];
      assert Count(hand, j) == if hand[0] == j then 1 else 0;
    }
  }

  // --- The whole wait --------------------------------------------------------------------------

  /** Lane i's token is on its way to the writer. */
  predicate Queued(s: State, i: nat) { i in s.ready || i in s.localReady }

  function Place(s: State, i: nat): nat { if i in s.ready then Waiting(s, i) else Ahead(s, i) }

  lemma StepKeepsQueue(c: Config, s: State, action: Action, s': State, i: nat)
    requires Inv(c, s) && Step(c, s, action) == Some(s') && i < c.Lanes() && Queued(s, i)
    ensures Queued(s', i) ==> Executes(s, action) + Place(s', i) <= Place(s, i)
    ensures !Queued(s', i) ==> s'.writer == Took(i) && Executes(s, action) == 0
  {
    hide Inv, WriterNext, ThreadNext, Waiting, Ahead;
    StepKeepsInv(c, s, action, s');
    if i in s.ready {
      if action.WriterStep? {
        WriterKeepsWaiting(c, s, s', i);
      } else {
        OthersKeepWaiting(c, s, action, s', i);
      }
    } else {
      StepKeepsPlace(c, s, action, s', i);
      NotBackToReady(c, s, action, s', i);
    }
  }

  /** While the writer holds lane i's token, no producer sends another. */
  lemma NotBackToReady(c: Config, s: State, action: Action, s': State, i: nat)
    requires Inv(c, s) && Step(c, s, action) == Some(s') && i < c.Lanes() && i in s.localReady
    ensures i !in s'.ready
  {
    hide OrderAt, BytesAt, FlushInv, HeldByAll;
    StepKeepsInv(c, s, action, s');
    assert TokenAt(s, i);
    MemberCounts(s.localReady, i);
    MemberCounts(s.ready, i);
    if action.Advance? && s.threads[action.thread].Won? {
      HeldAtLeast(s.threads, action.thread, Token, i);
    }
  }

  lemma {:induction false} QueueOverRun(
    c: Config, threadCount: nat, states: seq<State>, actions: seq<Action>, i: nat, a: nat, b: nat)
    requires Run(c, threadCount, states, actions) && a <= b < |states| && i < c.Lanes()
    requires forall k :: a <= k <= b ==> Queued(states[k], i)
    ensures Executions(states, actions, a, b) + Place(states[b], i) <= Place(states[a], i)
    decreases b
  {
    hide Inv, Step, Place, Queued;
    if a < b {
      QueueOverRun(c, threadCount, states, actions, i, a, b - 1);
      RunInv(c, threadCount, states, actions, b - 1);
      assert StepAt(c, states, actions, b - 1) && Queued(states[b - 1], i) && Queued(states[b], i);
      StepKeepsQueue(c, states[b - 1], actions[b - 1], states[b], i);
    }
  }

  /** Bounded overtaking from the send: from the moment lane i's token is in the ready queue until the
      writer pops it, at most as many operations run as there are lanes. */
  lemma BoundedWait(c: Config, threadCount: nat, states: seq<State>, actions: seq<Action>, i: nat, a: nat, b: nat)
    requires Run(c, threadCount, states, actions) && a < b < |states| && i < c.Lanes() && i in states[a].ready
    requires (forall k :: a <= k < b ==> Queued(states[k], i)) && !Queued(states[b], i)
    ensures Executions(states, actions, a, b) <= c.Lanes() && states[b].writer == Took(i)
  {
    hide Inv, Step;
    QueueOverRun(c, threadCount, states, actions, i, a, b - 1);
    RunInv(c, threadCount, states, actions, a);
    RunInv(c, threadCount, states, actions, b - 1);
    WaitingIsBounded(c, states[a], i);
    assert StepAt(c, states, actions, b - 1) && Queued(states[b - 1], i);
    StepKeepsQueue(c, states[b - 1], actions[b - 1], states[b], i);
  }
}
