/** The scheduler comes to rest: once no new call starts, every run is finite, with a bound that can be
    read off the state; and unless work was stranded, every insert and every flush has then returned. */
module WriterProgress {
  import opened Prelude
  import opened WriterLanes
  import opened WriterSafety

  // --- The measure -----------------------------------------------------------------------------

  /** What each program point of the writer is worth: more than what the step from it leaves behind. */
  function Phase(w: Writer): nat {
    match w
    case Blocked => 0
    case Popping => 1
    case Collecting => 2
    case Stale(_) => 3
    case Took(_) => 4
    case Rearming(_) => 7
    case Rechecking(_) => 8
    case Clearing(_) => 9
    case Finishing(_) => 10
    case Releasing(_, _) => 11
    case Running(_, _) => 12
  }

  const QUEUED: nat := 9
  const READY: nat := 7
  const LOCALLY_READY: nat := 4

  /** A flush that has yet to send to the lanes from `next` on. */
  function FlushWeight(next: nat, n: nat): nat { 2 + 19 * SatSub(n, next) }

  function ResumeWeight(resume: Resume, n: nat): nat {
    match resume
    case Done => 0
    case NextLane(_, next) => FlushWeight(next, n)
  }

  function Weight(p: Producer, n: nat): nat {
    match p
    case Idle => 0
    case Awaiting(_) => 1
    case Returning(_, _) => 1
    case Won(_, resume) => 8 + ResumeWeight(resume, n)
    case Sent(_, resume) => 9 + ResumeWeight(resume, n)
    case Reserved(_, _) => 19
    case Reserving(_, _, _) => 20
    case Flushing(_, next) => FlushWeight(next, n)
  }

  ghost function Weights(ts: seq<Producer>, n: nat): nat {
    if ts == [] then 0 else Weights(ts[..|ts| - 1], n) + Weight(ts[|ts| - 1], n)
  }

  function Waiting(l: Lane): nat { |l.queue| + if l.pending.Some? then 1 else 0 }

  /** Operations accepted and not yet taken. */
  ghost function AllWaiting(lanes: seq<Lane>): nat {
    if lanes == [] then 0 else AllWaiting(lanes[..|lanes| - 1]) + Waiting(lanes[|lanes| - 1])
  }

  /** A reservation whose compare-exchange will fail: the counter has moved since it was read. */
  predicate Outdated(p: Producer, lanes: seq<Lane>) {
    p.Reserving? && p.lane < |lanes| && p.seen != lanes[p.lane].queuedBytes
  }

  ghost function AllOutdated(ts: seq<Producer>, lanes: seq<Lane>): nat {
    if ts == [] then 0
    else AllOutdated(ts[..|ts| - 1], lanes) + if Outdated(ts[|ts| - 1], lanes) then 1 else 0
  }

  ghost function Potential(s: State): nat {
    QUEUED * AllWaiting(s.lanes) + READY * |s.ready| + LOCALLY_READY * |s.localReady| + Phase(s.writer)
    + Weights(s.threads, |s.lanes|)
  }

  /** No quiet run from s has more steps than this. */
  ghost function StepsLeft(s: State): nat {
    Scale(|s.threads| + 1, Potential(s)) + AllOutdated(s.threads, s.lanes)
  }

  ghost function Scale(k: nat, n: nat): nat { k * n }

  // --- Sums under updates ----------------------------------------------------------------------

  lemma {:induction false} WeightsUpdate(ts: seq<Producer>, t: nat, p: Producer, n: nat)
    requires t < |ts|
    ensures Weights(ts[t := p], n) == Weights(ts, n) - Weight(ts[t], n) + Weight(p, n)
  {
    hide Weight;
    if t == |ts| - 1 {
      assert ts[t := p][..t] == ts[..t];
    } else {
      WeightsUpdate(ts[..|ts| - 1], t, p, n);
      assert ts[t := p][..|ts| - 1] == ts[..|ts| - 1][t := p];
    }
  }

  lemma {:induction false} WaitingUpdate(lanes: seq<Lane>, i: nat, l: Lane)
    requires i < |lanes|
    ensures AllWaiting(lanes[i := l]) == AllWaiting(lanes) - Waiting(lanes[i]) + Waiting(l)
  {
    hide Waiting;
    if i == |lanes| - 1 {
      assert lanes[i := l][..i] == lanes[..i];
    } else {
      WaitingUpdate(lanes[..|lanes| - 1], i, l);
      assert lanes[i := l][..|lanes| - 1] == lanes[..|lanes| - 1][i := l];
    }
  }

  lemma {:induction false} OutdatedUpdate(ts: seq<Producer>, t: nat, p: Producer, lanes: seq<Lane>)
    requires t < |ts|
    ensures AllOutdated(ts[t := p], lanes) ==
            AllOutdated(ts, lanes) - (if Outdated(ts[t], lanes) then 1 else 0) + if Outdated(p, lanes) then 1 else 0
  {
    hide Outdated;
    if t == |ts| - 1 {
      assert ts[t := p][..t] == ts[..t];
    } else {
      OutdatedUpdate(ts[..|ts| - 1], t, p, lanes);
      assert ts[t := p][..|ts| - 1] == ts[..|ts| - 1][t := p];
    }
  }

  lemma {:induction false} OutdatedAtMost(ts: seq<Producer>, lanes: seq<Lane>)
    ensures AllOutdated(ts, lanes) <= |ts|
  {
    if ts != [] {
      OutdatedAtMost(ts[..|ts| - 1], lanes);
    }
  }

  // --- Every step uses some of it up -----------------------------------------------------------

  lemma TakeTurnSpends(c: Config, s: State, s': State)
    requires InRange(c, s) && TakeTurn.requires(s) && TakeTurn(s) == Some(s')
    ensures Potential(s') < Potential(s) && s'.threads == s.threads && |s'.lanes| == |s.lanes|
  {
    hide Weights, AllWaiting;
    if s.writer.Took? || s.writer.Stale? {
      WaitingUpdate(s.lanes, s.writer.lane, s'.lanes[s.writer.lane]);
      assert s.lanes[s.writer.lane := s'.lanes[s.writer.lane]] == s'.lanes;
    }
  }

  lemma RunTurnSpends(c: Config, s: State, s': State)
    requires InRange(c, s) && RunTurn.requires(s) && RunTurn(s) == Some(s')
    ensures Potential(s') < Potential(s) && s'.threads == s.threads && |s'.lanes| == |s.lanes|
  {
    hide Weights, AllWaiting;
    WaitingUpdate(s.lanes, s.writer.lane, s'.lanes[s.writer.lane]);
  }

  lemma FinishTurnSpends(c: Config, s: State, s': State)
    requires InRange(c, s) && FinishTurn.requires(s) && FinishTurn(s) == Some(s')
    ensures Potential(s') < Potential(s) && s'.threads == s.threads && |s'.lanes| == |s.lanes|
  {
    hide Weights, AllWaiting;
    WaitingUpdate(s.lanes, s.writer.lane, s'.lanes[s.writer.lane]);
    assert s.lanes[s.writer.lane := s'.lanes[s.writer.lane]] == s'.lanes;
  }

  lemma WriterSpends(c: Config, s: State, s': State)
    requires InRange(c, s) && WriterNext(s) == Some(s')
    ensures Potential(s') < Potential(s) && s'.threads == s.threads && |s'.lanes| == |s.lanes|
  {
    hide Potential, TakeTurn, RunTurn, FinishTurn;
    if s.writer.Running? || s.writer.Releasing? {
      RunTurnSpends(c, s, s');
    } else if s.writer.Finishing? || s.writer.Clearing? || s.writer.Rechecking? || s.writer.Rearming? {
      FinishTurnSpends(c, s, s');
    } else {
      TakeTurnSpends(c, s, s');
    }
  }

  /** A failed compare-exchange: the reservation reads the counter again. */
  predicate Retries(c: Config, s: State, t: nat)
    requires |s.lanes| == c.Lanes() && t < |s.threads| && ProducerInRange(s.threads[t], |s.lanes|)
  {
    var p := s.threads[t];
    p.Reserving? && p.seen + Cost(p.op) <= c.budget[p.lane] && Outdated(p, s.lanes)
  }

  lemma InsertSpends(c: Config, s: State, t: nat, s': State)
    requires InRange(c, s) && InsertNext.requires(c, s, t) && InsertNext(c, s, t) == Some(s') && !Retries(c, s, t)
    ensures Potential(s') < Potential(s) && |s'.threads| == |s.threads| && |s'.lanes| == |s.lanes|
  {
    hide Weights, AllWaiting;
    var i := s.threads[t].lane;
    WeightsUpdate(s.threads, t, s'.threads[t], |s.lanes|);
    WaitingUpdate(s.lanes, i, s'.lanes[i]);
    assert s.lanes[i := s'.lanes[i]] == s'.lanes;
  }

  lemma ScheduleSpends(c: Config, s: State, t: nat, s': State)
    requires InRange(c, s) && ScheduleNext.requires(s, t) && ScheduleNext(s, t) == Some(s')
    ensures Potential(s') < Potential(s) && |s'.threads| == |s.threads| && |s'.lanes| == |s.lanes|
  {
    hide Weights, AllWaiting;
    var i := s.threads[t].lane;
    WeightsUpdate(s.threads, t, s'.threads[t], |s.lanes|);
    WaitingUpdate(s.lanes, i, s'.lanes[i]);
    assert s.lanes[i := s'.lanes[i]] == s'.lanes;
  }

  lemma FlushSpends(c: Config, s: State, t: nat, s': State)
    requires InRange(c, s) && FlushNext.requires(c, s, t) && FlushNext(c, s, t) == Some(s')
    ensures Potential(s') < Potential(s) && |s'.threads| == |s.threads| && |s'.lanes| == |s.lanes|
  {
    hide Weights, AllWaiting;
    WeightsUpdate(s.threads, t, s'.threads[t], |s.lanes|);
    if s.threads[t].Flushing? && s.threads[t].next < |s.lanes| {
      WaitingUpdate(s.lanes, s.threads[t].next, s'.lanes[s.threads[t].next]);
    }
  }

  lemma ThreadSpends(c: Config, s: State, t: nat, s': State)
    requires InRange(c, s) && t < |s.threads| && ThreadNext(c, s, t) == Some(s') && !Retries(c, s, t)
    ensures Potential(s') < Potential(s) && |s'.threads| == |s.threads| && |s'.lanes| == |s.lanes|
  {
    hide Potential, InsertNext, ScheduleNext, FlushNext;
    var p := s.threads[t];
    if p.Sent? || p.Won? {
      ScheduleSpends(c, s, t, s');
    } else if p.Flushing? || p.Awaiting? {
      FlushSpends(c, s, t, s');
    } else {
      InsertSpends(c, s, t, s');
    }
  }

  lemma RetrySpends(c: Config, s: State, t: nat, s': State)
    requires InRange(c, s) && t < |s.threads| && ThreadNext(c, s, t) == Some(s') && Retries(c, s, t)
    ensures Potential(s') == Potential(s) && |s'.threads| == |s.threads| && |s'.lanes| == |s.lanes|
    ensures AllOutdated(s'.threads, s'.lanes) < AllOutdated(s.threads, s.lanes)
  {
    hide Weights, AllWaiting, AllOutdated;
    WeightsUpdate(s.threads, t, s'.threads[t], |s.lanes|);
    OutdatedUpdate(s.threads, t, s'.threads[t], s.lanes);
  }

  lemma ScaleDrops(k: nat, a: nat, b: nat)
    requires a < b
    ensures Scale(k, a) + k <= Scale(k, b)
  {
    assert k * (a + 1) <= k * b;
  }

  predicate Quiet(action: Action) { action.WriterStep? || action.Advance? }

  lemma StepSpends(c: Config, s: State, action: Action, s': State)
    requires InRange(c, s) && Quiet(action) && Step(c, s, action) == Some(s')
    ensures StepsLeft(s') < StepsLeft(s)
  {
    hide Potential, AllOutdated, Scale, WriterNext, ThreadNext, Retries;
    if action.Advance? && Retries(c, s, action.thread) {
      RetrySpends(c, s, action.thread, s');
    } else {
      if action.WriterStep? { WriterSpends(c, s, s'); } else { ThreadSpends(c, s, action.thread, s'); }
      ScaleDrops(|s.threads| + 1, Potential(s'), Potential(s));
      OutdatedAtMost(s'.threads, s'.lanes);
    }
  }

  // --- Quiet runs end --------------------------------------------------------------------------

  /** From state a on, no call starts and no compare-exchange fails spuriously. */
  ghost predicate QuietFrom(actions: seq<Action>, a: nat) {
    forall k :: a <= k < |actions| ==> Quiet(actions[k])
  }

  lemma {:induction false} QuietRunsAreShort(
    c: Config, threadCount: nat, states: seq<State>, actions: seq<Action>, a: nat, b: nat)
    requires Run(c, threadCount, states, actions) && QuietFrom(actions, a) && a <= b < |states|
    ensures b - a + StepsLeft(states[b]) <= StepsLeft(states[a])
    decreases b
  {
    hide StepsLeft, Step;
    if a < b {
      QuietRunsAreShort(c, threadCount, states, actions, a, b - 1);
      assert StepAt(c, states, actions, b - 1);
      StepSpends(c, states[b - 1], actions[b - 1], states[b]);
    }
  }

  /** Nobody is inside a call, every accepted operation was executed in order, every byte is released. */
  ghost predicate AtRest(s: State) {
    && (forall t :: 0 <= t < |s.threads| ==> s.threads[t].Idle?)
    && (forall i :: 0 <= i < |s.lanes| ==> Drained(s.lanes[i]))
  }

  /** Once calls stop coming, the threads and the writer come to a stop within a bounded number of steps,
      whatever the interleaving. Where they stop, everything is at rest, every flush returned included,
      exactly if no work was lost, and so whenever the run took no stranding step. */
  lemma EveryCallReturns(c: Config, threadCount: nat, states: seq<State>, actions: seq<Action>, a: nat)
    requires c.Valid() && Run(c, threadCount, states, actions) && QuietFrom(actions, a) && a < |states|
    ensures |actions| - a <= StepsLeft(states[a])
    ensures var last := states[|actions|];
            Inv(c, last) && (Stuck(c, last) ==> (AtRest(last) <==> NoLostWork(last)))
    ensures Stuck(c, states[|actions|]) && (forall k :: 0 <= k < |actions| ==> !Strands(states[k], actions[k])) ==>
              AtRest(states[|actions|])
  {
    hide StepsLeft, Step, Inv, Strands, Stuck, NoLostWork;
    QuietRunsAreShort(c, threadCount, states, actions, a, |actions|);
    RunInv(c, threadCount, states, actions, |actions|);
    RestExactly(c, states[|actions|]);
    if forall k :: 0 <= k < |actions| ==> !Strands(states[k], actions[k]) {
      NoLostWorkInRuns(c, threadCount, states, actions, |actions|);
    }
  }

  lemma RestExactly(c: Config, s: State)
    requires c.Valid() && Inv(c, s)
    ensures InRange(c, s) && (Stuck(c, s) ==> (AtRest(s) <==> NoLostWork(s)))
  {
    hide Stuck, WriterNext, ThreadNext;
    assert InRange(c, s);
    if Stuck(c, s) && NoLostWork(s) {
      StuckMeansDrained(c, s);
    }
    if AtRest(s) {
      assert forall i :: 0 <= i < |s.lanes| ==> Drained(s.lanes[i]);
    }
  }

  lemma RunExtends(c: Config, threadCount: nat, states: seq<State>, actions: seq<Action>, action: Action, s': State)
    requires Run(c, threadCount, states, actions) && InRange(c, states[|actions|])
    requires Step(c, states[|actions|], action) == Some(s')
    ensures Run(c, threadCount, states + [s'], actions + [action])
  {
    hide Step, InRange;
    forall k | 0 <= k < |actions + [action]| ensures StepAt(c, states + [s'], actions + [action], k) {
      if k < |actions| {
        assert StepAt(c, states, actions, k);
      }
    }
  }

  lemma SomeoneMoves(c: Config, s: State) returns (action: Action, s': State)
    requires InRange(c, s) && !Stuck(c, s)
    ensures Quiet(action) && Step(c, s, action) == Some(s')
  {
    hide WriterNext, ThreadNext;
    if WriterNext(s).Some? {
      action, s' := WriterStep, WriterNext(s).value;
    } else {
      var t :| 0 <= t < |s.threads| && ThreadNext(c, s, t).Some?;
      action, s' := Advance(t), ThreadNext(c, s, t).value;
    }
  }

  /** There is always such an end: any run goes on, without new calls, to a state where nobody can move. */
  lemma {:induction false} RunsToAStop(c: Config, threadCount: nat, states: seq<State>, actions: seq<Action>)
      returns (states': seq<State>, actions': seq<Action>)
    requires Run(c, threadCount, states, actions)
    ensures Run(c, threadCount, states', actions') && states <= states' && actions <= actions'
    ensures QuietFrom(actions', |actions|) && InRange(c, states'[|actions'|]) && Stuck(c, states'[|actions'|])
    decreases StepsLeft(states[|actions|])
  {
    hide StepsLeft, Step, Inv, Stuck, InRange, Run;
    RunLengths(c, threadCount, states, actions);
    RunInv(c, threadCount, states, actions, |actions|);
    InvInRange(c, states[|actions|]);
    if Stuck(c, states[|actions|]) {
      states', actions' := states, actions;
    } else {
      var action, s' := SomeoneMoves(c, states[|actions|]);
      StepSpends(c, states[|actions|], action, s');
      RunExtends(c, threadCount, states, actions, action, s');
      assert (states + [s'])[|actions + [action]|] == s';
      states', actions' := RunsToAStop(c, threadCount, states + [s'], actions + [action]);
      RunLengths(c, threadCount, states', actions');
      assert actions'[|actions|] == (actions + [action])[|actions|];
    }
  }

  lemma RunLengths(c: Config, threadCount: nat, states: seq<State>, actions: seq<Action>)
    requires Run(c, threadCount, states, actions)
    ensures |states| == |actions| + 1
  {
  }

  lemma InvInRange(c: Config, s: State)
    requires Inv(c, s)
    ensures InRange(c, s)
  {
  }
}
