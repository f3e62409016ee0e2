/** A concrete schedule for the one losing step of module WriterSafety: a producer delayed between its
    send and its compare-exchange leaves a stale token, a flush barrier arrives inside the stale
    token's Empty-then-clear window, and the flushing thread then waits forever. The run is put
    together from stretches in which one thread runs alone. */
module StaleToken {
  import opened Prelude
  import opened WriterLanes
  import opened WriterSafety

  // --- Putting runs together -------------------------------------------------------------------

  datatype Trace = Trace(states: seq<State>, actions: seq<Action>)

  /** The run is one of a system with three threads, and is now in state s. */
  ghost predicate At(c: Config, tr: Trace, s: State) {
    && |tr.states| > 0 && Run(c, 3, tr.states, tr.actions) && tr.states[|tr.actions|] == s
    && InRange(c, s)
  }

  lemma Extend(c: Config, tr: Trace, s: State, action: Action, s': State) returns (tr': Trace)
    requires At(c, tr, s) && Step(c, s, action) == Some(s') && InRange(c, s')
    ensures At(c, tr', s')
    ensures tr' == Trace(tr.states + [s'], tr.actions + [action])
  {
    hide Step, InRange;
    tr' := Trace(tr.states + [s'], tr.actions + [action]);
    forall k | 0 <= k < |tr'.actions| ensures StepAt(c, tr'.states, tr'.actions, k) {
      if k < |tr.actions| {
        assert StepAt(c, tr.states, tr.actions, k);
      }
    }
    assert tr'.states[0] == tr.states[0];
  }

  // --- One lane --------------------------------------------------------------------------------

  const ONE_LANE := Config([1000], 16)
  const A := Insert(1, 200)
  const B := Insert(2, 300)
  const F := Barrier(0)

  /** A state of the one-lane system. */
  function On(
    l: Lane, ready: seq<nat>, localReady: seq<nat>, w: Writer, threads: seq<Producer>, acks: seq<nat>): State {
    State([l], ready, localReady, w, threads, acks)
  }

  ghost predicate SameLane(l: Lane, m: Lane) {
    && l.queue == m.queue && l.scheduled == m.scheduled && l.pending == m.pending && l.queuedBytes == m.queuedBytes
    && l.sent == m.sent && l.applied == m.applied && l.finished == m.finished
  }

  /** The step leads to a one-lane state, field by field. */
  lemma Go(tr: Trace, s: State, action: Action, s': State) returns (tr': Trace)
    requires At(ONE_LANE, tr, s) && Step(ONE_LANE, s, action).Some? && InRange(ONE_LANE, s')
    requires var next := Step(ONE_LANE, s, action).value;
             && |next.lanes| == 1 == |s'.lanes| && SameLane(next.lanes[0], s'.lanes[0])
             && next.ready == s'.ready && next.localReady == s'.localReady && next.writer == s'.writer
             && next.threads == s'.threads && next.acks == s'.acks
    ensures At(ONE_LANE, tr', s')
    ensures tr' == Trace(tr.states + [s'], tr.actions + [action])
  {
    hide Step, InRange;
    var next := Step(ONE_LANE, s, action).value;
    assert next.lanes[0] == s'.lanes[0];
    assert next.lanes == [next.lanes[0]] && s'.lanes == [s'.lanes[0]];
    tr' := Extend(ONE_LANE, tr, s, action, s');
  }

  lemma InRangeAt(tr: Trace, s: State)
    requires At(ONE_LANE, tr, s)
    ensures InRange(ONE_LANE, s)
  {
  }

  /** An insert up to the send: reserved, queued, compare-exchange not yet made. */
  lemma Send(
    tr: Trace, l: Lane, ready: seq<nat>, w: Writer, threads: seq<Producer>, t: nat, op: Op) returns (tr': Trace)
    requires At(ONE_LANE, tr, On(l, ready, [], w, threads, [])) && t < |threads| && threads[t].Idle?
    requires op.Insert? && l.queuedBytes + op.cost <= 1000 && |l.queue| < 16
    ensures At(ONE_LANE, tr',
        On(l.(queue := l.queue + [op], queuedBytes := l.queuedBytes + op.cost, sent := l.sent + [op]),
                                 ready, [], w, threads[t := Sent(0, Done)], []))
  {
    hide WriterNext, At;
    var s := On(l, ready, [], w, threads, []);
    InRangeAt(tr, s);
    var reserving := s.(threads := threads[t := Reserving(0, op, l.queuedBytes)]);
    var l' := l.(queuedBytes := l.queuedBytes + op.cost);
    var reserved := On(l', ready, [], w, threads[t := Reserved(0, op)], []);
    var sent := On(l'.(queue := l.queue + [op], sent := l.sent + [op]), ready, [], w, threads[t := Sent(0, Done)], []);
    tr' := Go(tr, s, StartInsert(t, 0, op), reserving);
    tr' := Go(tr', reserving, Advance(t), reserved);
    tr' := Go(tr', reserved, Advance(t), sent);
  }

  /** The compare-exchange won, and the token sent. */
  lemma Schedule(tr: Trace, l: Lane, w: Writer, threads: seq<Producer>, t: nat) returns (tr': Trace)
    requires At(ONE_LANE, tr, On(l, [], [], w, threads, [])) && t < |threads| && threads[t] == Sent(0, Done)
        && !l.scheduled
    ensures At(ONE_LANE, tr', On(l.(scheduled := true), [0], [], w, threads[t := Idle], []))
  {
    hide WriterNext, At;
    var s := On(l, [], [], w, threads, []);
    InRangeAt(tr, s);
    var won := On(l.(scheduled := true), [], [], w, threads[t := Won(0, Done)], []);
    var scheduled := On(l.(scheduled := true), [0], [], w, threads[t := Idle], []);
    tr' := Go(tr, s, Advance(t), won);
    tr' := Go(tr', won, Advance(t), scheduled);
  }

  /** The writer pops the lane it holds locally. */
  lemma Pop(tr: Trace, l: Lane, threads: seq<Producer>) returns (tr': Trace)
    requires At(ONE_LANE, tr, On(l, [], [0], Collecting, threads, []))
    ensures At(ONE_LANE, tr', On(l, [], [], Took(0), threads, []))
  {
    hide ThreadNext, At;
    var s := On(l, [], [0], Collecting, threads, []);
    InRangeAt(tr, s);
    tr' := Go(tr, s, WriterStep, s.(writer := Popping));
    tr' := Go(tr', s.(writer := Popping), WriterStep, On(l, [], [], Took(0), threads, []));
  }

  /** The writer merges the ready token and pops it. */
  lemma CollectAndPop(tr: Trace, l: Lane, threads: seq<Producer>) returns (tr': Trace)
    requires At(ONE_LANE, tr, On(l, [0], [], Collecting, threads, []))
    ensures At(ONE_LANE, tr', On(l, [], [], Took(0), threads, []))
  {
    hide ThreadNext, At;
    var s := On(l, [0], [], Collecting, threads, []);
    InRangeAt(tr, s);
    tr' := Go(tr, s, WriterStep, On(l, [], [0], Collecting, threads, []));
    tr' := Pop(tr', l, threads);
  }

  /** The popped lane's next insert, executed and released. */
  function Served(l: Lane, op: Op): Lane
    requires op.Insert?
  {
    l.(queue := if l.pending.Some? then l.queue else if l.queue != [] then l.queue[1..] else [], pending := None,
       queuedBytes := SatSub(l.queuedBytes, op.cost), applied := l.applied + [op], finished := l.finished + [op])
  }

  lemma Serve(tr: Trace, l: Lane, threads: seq<Producer>, op: Op) returns (tr': Trace)
    requires At(ONE_LANE, tr, On(l, [], [], Took(0), threads, [])) && op.Insert?
    requires l.pending == Some(op) || (l.pending.None? && l.queue != [] && l.queue[0] == op)
    ensures At(ONE_LANE, tr', On(Served(l, op), [], [], Finishing(0), threads, []))
  {
    hide ThreadNext, At;
    var s := On(l, [], [], Took(0), threads, []);
    InRangeAt(tr, s);
    var l1 := l.(queue := Served(l, op).queue, pending := None);
    var l2 := l1.(applied := l.applied + [op]);
    tr' := Go(tr, s, WriterStep, On(l1, [], [], Running(0, op), threads, []));
    tr' := Go(tr', On(l1, [], [], Running(0, op), threads, []), WriterStep,
        On(l2, [], [], Releasing(0, op), threads, []));
    tr' := Go(tr', On(l2, [], [], Releasing(0, op), threads, []), WriterStep,
              On(Served(l, op), [], [], Finishing(0), threads, []));
  }

  /** `finish_turn` finds the lane empty, clears its bit, and finds it empty again. */
  lemma FinishEmpty(tr: Trace, l: Lane, threads: seq<Producer>) returns (tr': Trace)
    requires At(ONE_LANE, tr, On(l, [], [], Finishing(0), threads, [])) && l.queue == []
    ensures At(ONE_LANE, tr', On(l.(scheduled := false), [], [], Collecting, threads, []))
  {
    hide ThreadNext, At;
    var s, l' := On(l, [], [], Finishing(0), threads, []), l.(scheduled := false);
    InRangeAt(tr, s);
    tr' := Go(tr, s, WriterStep, s.(writer := Clearing(0)));
    tr' := Go(tr', s.(writer := Clearing(0)), WriterStep, On(l', [], [], Rechecking(0), threads, []));
    tr' := Go(tr', On(l', [], [], Rechecking(0), threads, []), WriterStep, On(l', [], [], Collecting, threads, []));
  }

  // --- The schedule ----------------------------------------------------------------------------

  const SENDING := Sent(0, Done)

  /** Thread 0's send stays unannounced; thread 1 schedules the lane, and the writer serves both inserts. */
  lemma WriterDrainsLane() returns (tr: Trace)
    ensures At(ONE_LANE, tr,
        On(Lane([], false, None, 0, [A, B], [A, B], [A, B]), [], [], Collecting, [SENDING, Idle, Idle], []))
  {
    hide At, Step;
    tr := Trace([Init(ONE_LANE, 3)], []);
    assert Init(ONE_LANE, 3) == On(NEW_LANE, [], [], Collecting, [Idle, Idle, Idle], []);
    StartsInRange(tr);
    tr := Send(tr, NEW_LANE, [], Collecting, [Idle, Idle, Idle], 0, A);
    var none: seq<Op> := [];
    assert none + [A] == [A];
    var l := Lane([A], false, None, 200, [A], [], []);
    assert [Idle, Idle, Idle][0 := SENDING] == [SENDING, Idle, Idle];
    tr := Send(tr, l, [], Collecting, [SENDING, Idle, Idle], 1, B);
    assert [A] + [B] == [A, B] && [SENDING, Idle, Idle][1 := SENDING] == [SENDING, SENDING, Idle];
    l := Lane([A, B], false, None, 500, [A, B], [], []);
    tr := Schedule(tr, l, Collecting, [SENDING, SENDING, Idle], 1);
    var threads := [SENDING, Idle, Idle];
    assert [SENDING, SENDING, Idle][1 := Idle] == threads;
    tr := CollectAndPop(tr, l.(scheduled := true), threads);
    tr := Serve(tr, l.(scheduled := true), threads, A);
    assert [A, B][1..] == [B];
    assert Served(l.(scheduled := true), A) == Lane([B], true, None, 300, [A, B], [A], [A]);
    tr := ServeSecond(tr, threads);
  }

  lemma StartsInRange(tr: Trace)
    requires tr == Trace([Init(ONE_LANE, 3)], [])
    ensures At(ONE_LANE, tr, Init(ONE_LANE, 3))
  {
  }

  lemma ServeSecond(tr: Trace, threads: seq<Producer>) returns (tr': Trace)
    requires At(ONE_LANE, tr, On(Lane([B], true, None, 300, [A, B], [A], [A]), [], [], Finishing(0), threads, []))
    ensures At(ONE_LANE, tr', On(Lane([], false, None, 0, [A, B], [A, B], [A, B]), [], [], Collecting, threads, []))
  {
    hide At, ThreadNext;
    var s := On(Lane([B], true, None, 300, [A, B], [A], [A]), [], [], Finishing(0), threads, []);
    InRangeAt(tr, s);
    var l := Lane([], true, Some(B), 300, [A, B], [A], [A]);
    tr' := Go(tr, s, WriterStep, On(l, [], [0], Collecting, threads, []));
    tr' := Pop(tr', l, threads);
    tr' := Serve(tr', l, threads, B);
    assert [A] + [B] == [A, B];
    tr' := FinishEmpty(tr', Lane([], true, None, 0, [A, B], [A, B], [A, B]), threads);
  }

  const DRAINED := Lane([], true, None, 0, [A, B], [A, B], [A, B])
  const LEFT := Lane([F], true, None, 0, [A, B, F], [A, B], [A, B])

  /** Thread 0 wakes up and announces work that is long done; the writer reads the lane empty. */
  lemma StaleTokenRead() returns (tr: Trace)
    ensures At(ONE_LANE, tr, On(DRAINED, [], [], Stale(0), [Idle, Idle, Idle], []))
  {
    hide At, ThreadNext;
    tr := WriterDrainsLane();
    tr := Schedule(tr, DRAINED.(scheduled := false), Collecting, [SENDING, Idle, Idle], 0);
    assert [SENDING, Idle, Idle][0 := Idle] == [Idle, Idle, Idle];
    tr := CollectAndPop(tr, DRAINED, [Idle, Idle, Idle]);
    var s := On(DRAINED, [], [], Took(0), [Idle, Idle, Idle], []);
    InRangeAt(tr, s);
    tr := Go(tr, s, WriterStep, s.(writer := Stale(0)));
  }

  const SENT_BARRIER := On(LEFT, [], [], Stale(0), [Idle, Idle, Sent(0, NextLane(0, 1))], [0])

  /** Before the writer clears the bit, thread 2's barrier arrives ... */
  lemma BarrierInTheWindow() returns (tr: Trace)
    ensures At(ONE_LANE, tr, SENT_BARRIER)
  {
    hide At, WriterNext, InsertNext, ScheduleNext;
    tr := StaleTokenRead();
    var s := On(DRAINED, [], [], Stale(0), [Idle, Idle, Idle], []);
    InRangeAt(tr, s);
    var flushing := On(DRAINED, [], [], Stale(0), [Idle, Idle, Flushing(0, 0)], [0]);
    tr := Go(tr, s, StartFlush(2), flushing);
    tr := Go(tr, flushing, Advance(2), SENT_BARRIER);
  }

  /** ... and loses the compare-exchange, so its sender only waits. */
  lemma BarrierUnannounced() returns (tr: Trace)
    ensures At(ONE_LANE, tr, On(LEFT, [], [], Stale(0), [Idle, Idle, Awaiting(0)], [0]))
  {
    hide At, WriterNext, InsertNext;
    tr := BarrierInTheWindow();
    InRangeAt(tr, SENT_BARRIER);
    var lost := On(LEFT, [], [], Stale(0), [Idle, Idle, Flushing(0, 1)], [0]);
    tr := Go(tr, SENT_BARRIER, Advance(2), lost);
    tr := Go(tr, lost, Advance(2), On(LEFT, [], [], Stale(0), [Idle, Idle, Awaiting(0)], [0]));
  }

  const STUCK := On(LEFT.(scheduled := false), [], [], Blocked, [Idle, Idle, Awaiting(0)], [0])

  lemma LastIsStuck()
    ensures InRange(ONE_LANE, STUCK) && Stuck(ONE_LANE, STUCK)
  {
  }

  /** The schedule above is a run of the system, its last state is stuck, the flushing thread still
      waits for an acknowledgement, and its barrier sits in a lane nobody will look at. */
  lemma FlushCanWaitForever() returns (states: seq<State>, actions: seq<Action>)
    ensures Run(ONE_LANE, 3, states, actions)
    ensures InRange(ONE_LANE, states[|actions|]) && Stuck(ONE_LANE, states[|actions|])
    ensures |states[|actions|].threads| == 3 && states[|actions|].threads[2].Awaiting?
        && HasWork(states[|actions|].lanes[0])
    ensures exists k :: 0 <= k < |actions| && Strands(states[k], actions[k])
  {
    hide ThreadNext, Stuck;
    var tr := BarrierUnannounced();
    var k := |tr.actions|;
    var s := On(LEFT, [], [], Stale(0), [Idle, Idle, Awaiting(0)], [0]);
    var cleared := On(LEFT.(scheduled := false), [], [], Collecting, [Idle, Idle, Awaiting(0)], [0]);
    tr := Go(tr, s, WriterStep, cleared);
    HeldByNobody(s.threads, Unscheduled, 0);
    assert tr.states[k] == s && Strands(tr.states[k], tr.actions[k]);
    tr := Go(tr, cleared, WriterStep, cleared.(writer := Popping));
    tr := Go(tr, cleared.(writer := Popping), WriterStep, STUCK);
    LastIsStuck();
    states, actions := tr.states, tr.actions;
    assert Strands(states[k], actions[k]);
  }
}
