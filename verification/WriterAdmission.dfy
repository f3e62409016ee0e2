/** No insert is turned away for nothing: over any run, a call that does not get its operation into the
    lane met a share without room for its bytes, or a full lane, while it was under way. */
module WriterAdmission {
  import opened Prelude
  import opened WriterLanes
  import opened WriterSafety

  /** In some state from a to b the lane had no room: its share could not take the bytes, or its queue was full. */
  ghost predicate NoRoom(c: Config, states: seq<State>, a: nat, b: nat, i: nat, op: Op)
    requires a <= b < |states|
  {
    exists x :: a <= x <= b && Crowded(c, states[x], i, op)
  }

  ghost predicate Crowded(c: Config, s: State, i: nat, op: Op) {
    i < |s.lanes| && i < c.Lanes() &&
    (s.lanes[i].queuedBytes + Cost(op) > c.budget[i] || |s.lanes[i].queue| >= c.laneCapacity)
  }

  /** Between states a and b thread t itself put the operation at the end of the lane. */
  ghost predicate Accepted(states: seq<State>, actions: seq<Action>, a: nat, b: nat, t: nat, i: nat, op: Op)
    requires a <= b < |states| == |actions| + 1
  {
    exists x :: a <= x < b && Appends(states, actions, x, t, i, op)
  }

  ghost predicate Appends(states: seq<State>, actions: seq<Action>, x: nat, t: nat, i: nat, op: Op)
    requires x < |actions| && |states| == |actions| + 1
  {
    && actions[x] == Advance(t) && i < |states[x].lanes| && i < |states[x + 1].lanes|
    && states[x + 1].lanes[i].sent == states[x].lanes[i].sent + [op]
    && states[x + 1].lanes[i].queue == states[x].lanes[i].queue + [op]
  }

  /** The reading a reservation works with was the counter's value at some moment of the call. */
  ghost predicate WasRead(states: seq<State>, a: nat, b: nat, i: nat, seen: nat)
    requires a <= b < |states|
  {
    exists x :: a <= x <= b && i < |states[x].lanes| && states[x].lanes[i].queuedBytes == seen
  }

  /** How far the call that started in state a has come in state b. */
  ghost predicate Underway(
    c: Config, states: seq<State>, actions: seq<Action>, a: nat, b: nat, t: nat, i: nat, op: Op)
    requires a <= b < |states| == |actions| + 1
  {
    t < |states[b].threads| &&
    match states[b].threads[t]
    case Reserving(j, o, seen) => j == i && o == op && WasRead(states, a, b, i, seen)
    case Reserved(j, o) => j == i && o == op
    case Returning(j, _) => j == i && NoRoom(c, states, a, b, i, op)
    case Sent(j, resume) => j == i && resume.Done? && Accepted(states, actions, a, b, t, i, op)
    case Won(j, resume) => j == i && resume.Done? && Accepted(states, actions, a, b, t, i, op)
    case _ => false
  }

  /** The call over in state b: accepted by then, or turned away with a reason. */
  ghost predicate Settled(
    c: Config, states: seq<State>, actions: seq<Action>, a: nat, b: nat, t: nat, i: nat, op: Op)
    requires a <= b < |states| == |actions| + 1
  {
    Accepted(states, actions, a, b, t, i, op) || NoRoom(c, states, a, b, i, op)
  }

  lemma OthersKeepThread(c: Config, s: State, action: Action, s': State, t: nat)
    requires InRange(c, s) && t < |s.threads| && Step(c, s, action) == Some(s')
    requires action.WriterStep? || action.thread != t
    ensures |s'.threads| == |s.threads| && s'.threads[t] == s.threads[t]
  {
  }

  lemma StillUnderway(c: Config, states: seq<State>, actions: seq<Action>, a: nat, b: nat, t: nat, i: nat, op: Op)
    requires a <= b < |states| - 1 && |states| == |actions| + 1
    requires Underway(c, states, actions, a, b, t, i, op)
    requires t < |states[b + 1].threads| && states[b + 1].threads[t] == states[b].threads[t]
    ensures Underway(c, states, actions, a, b + 1, t, i, op)
  {
    RoomStays(c, states, a, b, i, op);
    match states[b].threads[t] {
      case Reserving(_, _, seen) =>
        var x :| a <= x <= b && i < |states[x].lanes| && states[x].lanes[i].queuedBytes == seen;
        assert WasRead(states, a, b + 1, i, seen);
      case Sent(_, _) => AcceptedStays(states, actions, a, b, t, i, op);
      case Won(_, _) => AcceptedStays(states, actions, a, b, t, i, op);
      case _ =>
    }
  }

  lemma RoomStays(c: Config, states: seq<State>, a: nat, b: nat, i: nat, op: Op)
    requires a <= b < |states| - 1
    ensures NoRoom(c, states, a, b, i, op) ==> NoRoom(c, states, a, b + 1, i, op)
  {
  }

  lemma AcceptedStays(states: seq<State>, actions: seq<Action>, a: nat, b: nat, t: nat, i: nat, op: Op)
    requires a <= b < |states| - 1 && |states| == |actions| + 1 && Accepted(states, actions, a, b, t, i, op)
    ensures Accepted(states, actions, a, b + 1, t, i, op)
  {
    var x :| a <= x < b && Appends(states, actions, x, t, i, op);
  }

  /** A reservation's own step: it gets the bytes, reads again, or its reading left no room. */
  lemma ReservingMoves(c: Config, states: seq<State>, actions: seq<Action>, a: nat, b: nat, t: nat, i: nat, op: Op)
    requires a <= b < |states| - 1 && |states| == |actions| + 1 && StepAt(c, states, actions, b)
    requires Underway(c, states, actions, a, b, t, i, op) && states[b].threads[t].Reserving?
    requires actions[b] == Advance(t) || actions[b] == SpuriousFailure(t)
    ensures t < |states[b + 1].threads|
    ensures Underway(c, states, actions, a, b + 1, t, i, op) ||
            (states[b + 1].threads[t].Idle? && Settled(c, states, actions, a, b + 1, t, i, op))
  {
    var s, s', p := states[b], states[b + 1], states[b].threads[t];
    assert i < |s.lanes| == c.Lanes();
    if s'.threads[t].Reserving? {
      assert states[b].lanes[i].queuedBytes == s'.threads[t].seen;
      assert WasRead(states, a, b + 1, i, s'.threads[t].seen);
    } else if s'.threads[t].Idle? {
      var x :| a <= x <= b && i < |states[x].lanes| && states[x].lanes[i].queuedBytes == p.seen;
      assert Crowded(c, states[x], i, op);
    }
  }

  lemma ReservedMoves(c: Config, states: seq<State>, actions: seq<Action>, a: nat, b: nat, t: nat, i: nat, op: Op)
    requires a <= b < |states| - 1 && |states| == |actions| + 1 && StepAt(c, states, actions, b)
    requires Underway(c, states, actions, a, b, t, i, op) && states[b].threads[t].Reserved? && actions[b] == Advance(t)
    ensures t < |states[b + 1].threads| && Underway(c, states, actions, a, b + 1, t, i, op)
  {
    var s, s' := states[b], states[b + 1];
    assert i < |s.lanes| == c.Lanes();
    if s'.threads[t].Sent? {
      assert Appends(states, actions, b, t, i, op);
    } else {
      assert Crowded(c, states[b], i, op);
    }
  }

  lemma LaterMoves(c: Config, states: seq<State>, actions: seq<Action>, a: nat, b: nat, t: nat, i: nat, op: Op)
    requires a <= b < |states| - 1 && |states| == |actions| + 1 && StepAt(c, states, actions, b)
    requires Underway(c, states, actions, a, b, t, i, op) && actions[b] == Advance(t)
    requires states[b].threads[t].Returning? || states[b].threads[t].Sent? || states[b].threads[t].Won?
    ensures t < |states[b + 1].threads|
    ensures Underway(c, states, actions, a, b + 1, t, i, op) ||
            (states[b + 1].threads[t].Idle? && Settled(c, states, actions, a, b + 1, t, i, op))
  {
    RoomStays(c, states, a, b, i, op);
    if !states[b].threads[t].Returning? {
      AcceptedStays(states, actions, a, b, t, i, op);
    }
  }

  lemma CallMoves(c: Config, states: seq<State>, actions: seq<Action>, a: nat, b: nat, t: nat, i: nat, op: Op)
    requires a <= b < |states| - 1 && |states| == |actions| + 1 && StepAt(c, states, actions, b)
    requires Underway(c, states, actions, a, b, t, i, op)
    ensures t < |states[b + 1].threads|
    ensures Underway(c, states, actions, a, b + 1, t, i, op) ||
            (states[b + 1].threads[t].Idle? && Settled(c, states, actions, a, b + 1, t, i, op))
  {
    hide Underway, Settled, ThreadNext, WriterNext, InRange;
    UnderwayIsBusy(c, states, actions, a, b, t, i, op);
    var action, p := actions[b], states[b].threads[t];
    if action.WriterStep? || action.thread != t {
      OthersKeepThread(c, states[b], action, states[b + 1], t);
      StillUnderway(c, states, actions, a, b, t, i, op);
    } else if p.Reserving? {
      ReservingMoves(c, states, actions, a, b, t, i, op);
    } else if p.Reserved? {
      ReservedMoves(c, states, actions, a, b, t, i, op);
    } else {
      LaterMoves(c, states, actions, a, b, t, i, op);
    }
  }

  lemma UnderwayIsBusy(
    c: Config, states: seq<State>, actions: seq<Action>, a: nat, b: nat, t: nat, i: nat, op: Op)
    requires a <= b < |states| == |actions| + 1 && Underway(c, states, actions, a, b, t, i, op)
    ensures t < |states[b].threads|
    ensures var p := states[b].threads[t]; p.Reserving? || p.Reserved? || p.Returning? || p.Sent? || p.Won?
  {
  }

  /** Until the call is over it is under way. */
  lemma {:induction false} CallGoesOn(
    c: Config, threadCount: nat, states: seq<State>, actions: seq<Action>, a: nat, b: nat, t: nat, i: nat, op: Op)
    requires Run(c, threadCount, states, actions) && a < b < |states| && actions[a] == StartInsert(t, i, op)
    requires forall k :: a < k < b ==> t < |states[k].threads| && !states[k].threads[t].Idle?
    ensures t < |states[b].threads|
    ensures Underway(c, states, actions, a, b, t, i, op) ||
            (states[b].threads[t].Idle? && Settled(c, states, actions, a, b, t, i, op))
    decreases b
  {
    hide Underway, Settled, Step;
    assert StepAt(c, states, actions, b - 1);
    if b == a + 1 {
      CallStarts(c, states, actions, a, t, i, op);
    } else {
      CallGoesOn(c, threadCount, states, actions, a, b - 1, t, i, op);
      CallMoves(c, states, actions, a, b - 1, t, i, op);
    }
  }

  lemma CallStarts(c: Config, states: seq<State>, actions: seq<Action>, a: nat, t: nat, i: nat, op: Op)
    requires a < |states| - 1 && |states| == |actions| + 1 && StepAt(c, states, actions, a)
    requires actions[a] == StartInsert(t, i, op)
    ensures Underway(c, states, actions, a, a + 1, t, i, op)
  {
    assert WasRead(states, a, a + 1, i, states[a].lanes[i].queuedBytes);
  }

  /** An insert that has returned was put into its lane, or the lane had no room for it at some moment of
      the call; with room all the while it is always accepted. */
  lemma InsertReturns(
    c: Config, threadCount: nat, states: seq<State>, actions: seq<Action>, a: nat, b: nat, t: nat, i: nat, op: Op)
    requires Run(c, threadCount, states, actions) && a < b < |states| && actions[a] == StartInsert(t, i, op)
    requires t < |states[b].threads| && states[b].threads[t].Idle?
    requires forall k :: a < k < b ==> t < |states[k].threads| && !states[k].threads[t].Idle?
    ensures Accepted(states, actions, a, b, t, i, op) || NoRoom(c, states, a, b, i, op)
  {
    CallGoesOn(c, threadCount, states, actions, a, b, t, i, op);
  }
}
