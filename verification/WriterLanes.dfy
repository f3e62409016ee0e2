/** The write-behind scheduler: producers (`try_insert`, `flush`) and the single writer thread as
    interleaved atomic steps over per-tenant lanes, a coalescing `scheduled` bit, a bounded ready
    queue, the writer's local FIFO and one `pending` slot per lane. */
module WriterLanes {
  import opened Prelude

  datatype Op = Insert(id: nat, cost: nat) | Barrier(flush: nat)

  /** `budget[i]` is the writer share of lane i; `laneCapacity` bounds one lane's channel. */
  datatype Config = Config(budget: seq<nat>, laneCapacity: nat) {
    function Lanes(): nat { |budget| }
    ghost predicate Valid() { laneCapacity >= 1 }
  }

  /** One tenant lane. `sent`, `applied` and `finished` are histories: operations accepted by the
      channel, executed by the writer, and executed with their reservation released. */
  datatype Lane = Lane(
    queue: seq<Op>, scheduled: bool, pending: Option<Op>, queuedBytes: nat,
    sent: seq<Op>, applied: seq<Op>, finished: seq<Op>)

  /** What a thread goes on to do once `schedule` returns. */
  datatype Resume = Done | NextLane(flush: nat, next: nat)

  /** Program points of a request thread, named by the atomic operation it performs next. */
  datatype Producer =
    | Idle
    | Reserving(lane: nat, op: Op, seen: nat)  // `reserve_bytes` loaded `seen`, compare-exchange next
    | Reserved(lane: nat, op: Op)              // bytes reserved, `try_send` next
    | Returning(lane: nat, cost: nat)          // lane was full, the returned insert is about to drop
    | Sent(lane: nat, resume: Resume)          // operation queued, `schedule`'s compare-exchange next
    | Won(lane: nat, resume: Resume)           // compare-exchange won, `ready.try_send` next
    | Flushing(flush: nat, next: nat)          // barrier for lane `next` comes next
    | Awaiting(flush: nat)                     // all barriers sent, collecting acknowledgements

  /** Program points of the writer thread. */
  datatype Writer =
    | Collecting                      // `collect_newly_ready`
    | Popping                         // `local_ready.pop_front`
    | Blocked                         // `ready.recv`
    | Took(lane: nat)                 // `take_ready`
    | Stale(lane: nat)                // `take_ready` read Empty and is about to clear the bit
    | Running(lane: nat, op: Op)      // about to apply the insert or acknowledge the barrier
    | Releasing(lane: nat, op: Op)    // about to drop the operation
    | Finishing(lane: nat)            // `finish_turn`
    | Clearing(lane: nat)             // `finish_turn` read Empty and is about to clear the bit
    | Rechecking(lane: nat)           // `finish_turn` double-checks the lane
    | Rearming(lane: nat)             // `finish_turn` found work, compare-exchange next

  datatype State = State(
    lanes: seq<Lane>, ready: seq<nat>, localReady: seq<nat>, writer: Writer,
    threads: seq<Producer>, acks: seq<nat>)

  datatype Action =
    | WriterStep
    | StartInsert(thread: nat, lane: nat, op: Op)
    | StartFlush(thread: nat)
    | Advance(thread: nat)
    | SpuriousFailure(thread: nat)  // `compare_exchange_weak` may fail although the value matched

  function Cost(op: Op): nat {
    match op
    case Insert(_, cost) => cost
    case Barrier(_) => 0
  }

  function After(resume: Resume): Producer {
    match resume
    case Done => Idle
    case NextLane(flush, next) => Flushing(flush, next)
  }

  function WriterInRange(w: Writer, n: nat): bool {
    w.Collecting? || w.Popping? || w.Blocked? || w.lane < n
  }

  predicate ProducerInRange(p: Producer, n: nat) {
    match p
    case Idle => true
    case Reserving(i, op, _) => i < n && op.Insert?
    case Reserved(i, op) => i < n && op.Insert?
    case Returning(i, _) => i < n
    case Sent(i, _) => i < n
    case Won(i, _) => i < n
    case Flushing(_, _) => true
    case Awaiting(_) => true
  }

  /** Every lane index mentioned anywhere exists. */
  ghost predicate InRange(c: Config, s: State) {
    && |s.lanes| == c.Lanes()
    && WriterInRange(s.writer, c.Lanes())
    && (forall t :: 0 <= t < |s.threads| ==> ProducerInRange(s.threads[t], c.Lanes()))
    && (forall k :: 0 <= k < |s.ready| ==> s.ready[k] < c.Lanes())
    && (forall k :: 0 <= k < |s.localReady| ==> s.localReady[k] < c.Lanes())
  }

  // --- Atomic steps of the writer --------------------------------------------------------------

  /** `next`, `try_next` and `take_ready`: merge new signals, pop a lane, take its next operation. */
  function TakeTurn(s: State): Option<State>
    requires WriterInRange(s.writer, |s.lanes|)
    requires s.writer.Collecting? || s.writer.Popping? || s.writer.Blocked? || s.writer.Took? || s.writer.Stale?
  {
    match s.writer
    case Collecting =>
      if s.ready != [] then
        Some(s.(ready := s.ready[1..], localReady := s.localReady + [s.ready[0]]))
      else
        Some(s.(writer := Popping))
    case Popping =>
      if s.localReady != [] then
        Some(s.(localReady := s.localReady[1..], writer := Took(s.localReady[0])))
      else
        Some(s.(writer := Blocked))
    case Blocked =>
      if s.ready != [] then
        Some(s.(ready := s.ready[1..], localReady := s.localReady + [s.ready[0]], writer := Collecting))
      else
        None
    case Took(i) =>
      var l := s.lanes[i];
      if l.pending.Some? then
        Some(s.(lanes := s.lanes[i := l.(pending := None)], writer := Running(i, l.pending.value)))
      else if l.queue != [] then
        Some(s.(lanes := s.lanes[i := l.(queue := l.queue[1..])], writer := Running(i, l.queue[0])))
      else
        Some(s.(writer := Stale(i)))
    case Stale(i) =>
      Some(s.(lanes := s.lanes[i := s.lanes[i].(scheduled := false)], writer := Collecting))
  }

  /** The writer loop's body: apply or acknowledge, then drop the operation and its reservation. */
  function RunTurn(s: State): Option<State>
    requires WriterInRange(s.writer, |s.lanes|)
    requires s.writer.Running? || s.writer.Releasing?
  {
    var i, op, l := s.writer.lane, s.writer.op, s.lanes[s.writer.lane];
    if s.writer.Running? then
      var acks := if op.Barrier? && op.flush < |s.acks| then s.acks[op.flush := s.acks[op.flush] + 1] else s.acks;
      Some(s.(lanes := s.lanes[i := l.(applied := l.applied + [op])], writer := Releasing(i, op), acks := acks))
    else
      Some(s.(lanes := s.lanes[i := l.(queuedBytes := SatSub(l.queuedBytes, Cost(op)), finished := l.finished + [op])],
              writer := Finishing(i)))
  }

  /** `finish_turn`: requeue the lane if work remains, else clear its bit and double-check. */
  function FinishTurn(s: State): Option<State>
    requires WriterInRange(s.writer, |s.lanes|)
    requires s.writer.Finishing? || s.writer.Clearing? || s.writer.Rechecking? || s.writer.Rearming?
  {
    var i, l := s.writer.lane, s.lanes[s.writer.lane];
    match s.writer
    case Finishing(_) =>
      if l.queue != [] then
        Some(s.(lanes := s.lanes[i := l.(queue := l.queue[1..], pending := Some(l.queue[0]))],
                localReady := s.localReady + [i], writer := Collecting))
      else
        Some(s.(writer := Clearing(i)))
    case Clearing(_) =>
      Some(s.(lanes := s.lanes[i := l.(scheduled := false)], writer := Rechecking(i)))
    case Rechecking(_) =>
      if l.queue != [] then
        Some(s.(lanes := s.lanes[i := l.(queue := l.queue[1..], pending := Some(l.queue[0]))], writer := Rearming(i)))
      else
        Some(s.(writer := Collecting))
    case Rearming(_) =>
      if l.scheduled then
        Some(s.(writer := Collecting))
      else
        Some(s.(lanes := s.lanes[i := l.(scheduled := true)], localReady := s.localReady + [i], writer := Collecting))
  }

  function WriterNext(s: State): Option<State>
    requires WriterInRange(s.writer, |s.lanes|)
  {
    if s.writer.Running? || s.writer.Releasing? then
      RunTurn(s)
    else if s.writer.Finishing? || s.writer.Clearing? || s.writer.Rechecking? || s.writer.Rearming? then
      FinishTurn(s)
    else
      TakeTurn(s)
  }

  // --- Atomic steps of the request threads -----------------------------------------------------

  function SetThread(s: State, t: nat, p: Producer): State
    requires t < |s.threads|
  {
    s.(threads := s.threads[t := p])
  }

  /** `reserve_bytes`, the lane's `try_send`, and the drop of an insert a full lane returned. */
  function InsertNext(c: Config, s: State, t: nat): Option<State>
    requires |s.lanes| == c.Lanes() && t < |s.threads| && ProducerInRange(s.threads[t], |s.lanes|)
    requires s.threads[t].Reserving? || s.threads[t].Reserved? || s.threads[t].Returning?
  {
    var i, l := s.threads[t].lane, s.lanes[s.threads[t].lane];
    match s.threads[t]
    case Reserving(_, op, seen) =>
      if seen + Cost(op) > c.budget[i] then
        Some(SetThread(s, t, Idle))
      else if l.queuedBytes == seen then
        Some(SetThread(s.(lanes := s.lanes[i := l.(queuedBytes := seen + Cost(op))]), t, Reserved(i, op)))
      else
        Some(SetThread(s, t, Reserving(i, op, l.queuedBytes)))
    case Reserved(_, op) =>
      if |l.queue| < c.laneCapacity then
        Some(SetThread(s.(lanes := s.lanes[i := l.(queue := l.queue + [op], sent := l.sent + [op])]), t, Sent(i, Done)))
      else
        Some(SetThread(s, t, Returning(i, Cost(op))))
    case Returning(_, cost) =>
      Some(SetThread(s.(lanes := s.lanes[i := l.(queuedBytes := SatSub(l.queuedBytes, cost))]), t, Idle))
  }

  /** `schedule`: one compare-exchange, and for its winner one send into the ready queue. */
  function ScheduleNext(s: State, t: nat): Option<State>
    requires t < |s.threads| && ProducerInRange(s.threads[t], |s.lanes|)
    requires s.threads[t].Sent? || s.threads[t].Won?
  {
    var i, resume, l := s.threads[t].lane, s.threads[t].resume, s.lanes[s.threads[t].lane];
    if s.threads[t].Sent? then
      if l.scheduled then
        Some(SetThread(s, t, After(resume)))
      else
        Some(SetThread(s.(lanes := s.lanes[i := l.(scheduled := true)]), t, Won(i, resume)))
    else if |s.ready| < |s.lanes| + 1 then
      Some(SetThread(s.(ready := s.ready + [i]), t, After(resume)))
    else
      Some(SetThread(s.(lanes := s.lanes[i := l.(scheduled := false)]), t, After(resume)))
  }

  /** `flush`: a blocking send of one barrier into every lane, then one acknowledgement per lane. */
  function FlushNext(c: Config, s: State, t: nat): Option<State>
    requires |s.lanes| == c.Lanes() && t < |s.threads|
    requires s.threads[t].Flushing? || s.threads[t].Awaiting?
  {
    var f := s.threads[t].flush;
    if s.threads[t].Awaiting? then
      if f < |s.acks| && s.acks[f] >= |s.lanes| then Some(SetThread(s, t, Idle)) else None
    else
      var j := s.threads[t].next;
      if j >= |s.lanes| then
        Some(SetThread(s, t, Awaiting(f)))
      else if |s.lanes[j].queue| < c.laneCapacity then
        var l := s.lanes[j];
        Some(SetThread(s.(lanes := s.lanes[j := l.(queue := l.queue + [Barrier(f)], sent := l.sent + [Barrier(f)])]),
                       t, Sent(j, NextLane(f, j + 1))))
      else
        None
  }

  function ThreadNext(c: Config, s: State, t: nat): Option<State>
    requires |s.lanes| == c.Lanes() && t < |s.threads| && ProducerInRange(s.threads[t], |s.lanes|)
  {
    var p := s.threads[t];
    if p.Idle? then None
    else if p.Sent? || p.Won? then ScheduleNext(s, t)
    else if p.Flushing? || p.Awaiting? then FlushNext(c, s, t)
    else InsertNext(c, s, t)
  }

  /** One atomic step; `None` when the labelled step is not enabled. */
  function Step(c: Config, s: State, action: Action): Option<State>
    requires InRange(c, s)
  {
    match action
    case WriterStep => WriterNext(s)
    case StartInsert(t, i, op) =>
      if t < |s.threads| && s.threads[t].Idle? && i < |s.lanes| && op.Insert? then
        Some(SetThread(s, t, Reserving(i, op, s.lanes[i].queuedBytes)))
      else
        None
    case StartFlush(t) =>
      if t < |s.threads| && s.threads[t].Idle? then
        Some(SetThread(s.(acks := s.acks + [0]), t, Flushing(|s.acks|, 0)))
      else
        None
    case Advance(t) =>
      if t < |s.threads| then ThreadNext(c, s, t) else None
    case SpuriousFailure(t) =>
      if t < |s.threads| && s.threads[t].Reserving? then
        var p := s.threads[t];
        Some(SetThread(s, t, p.(seen := s.lanes[p.lane].queuedBytes)))
      else
        None
  }

  const NEW_LANE := Lane([], false, None, 0, [], [], [])

  function Init(c: Config, threadCount: nat): State {
    State(seq(c.Lanes(), i => NEW_LANE), [], [], Collecting, seq(threadCount, t => Idle), [])
  }


  // --- Counting what threads hold --------------------------------------------------------------

  /** What a thread may hold for a lane: a won token, an operation it has yet to schedule, bytes. */
  datatype Kind = Token | Unscheduled | Bytes

  function Held(p: Producer, kind: Kind, i: nat): nat {
    match (kind, p)
    case (Token, Won(j, _)) => if i == j then 1 else 0
    case (Unscheduled, Sent(j, _)) => if i == j then 1 else 0
    case (Bytes, Reserved(j, op)) => if i == j then Cost(op) else 0
    case (Bytes, Returning(j, cost)) => if i == j then cost else 0
    case _ => 0
  }

  ghost function HeldByAll(ts: seq<Producer>, kind: Kind, i: nat): nat {
    if ts == [] then 0 else HeldByAll(ts[..|ts| - 1], kind, i) + Held(ts[|ts| - 1], kind, i)
  }

  lemma {:induction false} HeldUpdate(ts: seq<Producer>, t: nat, p: Producer, kind: Kind, i: nat)
    requires t < |ts|
    ensures HeldByAll(ts[t := p], kind, i) == HeldByAll(ts, kind, i) - Held(ts[t], kind, i) + Held(p, kind, i)
  {
    if t == |ts| - 1 {
      assert ts[t := p][..t] == ts[..t];
    } else {
      HeldUpdate(ts[..|ts| - 1], t, p, kind, i);
      assert ts[t := p][..|ts| - 1] == ts[..|ts| - 1][t := p];
    }
  }

  lemma {:induction false} HeldByNobody(ts: seq<Producer>, kind: Kind, i: nat)
    requires forall t :: 0 <= t < |ts| ==> Held(ts[t], kind, i) == 0
    ensures HeldByAll(ts, kind, i) == 0
  {
    if ts != [] {
      HeldByNobody(ts[..|ts| - 1], kind, i);
    }
  }

  ghost function Count(q: seq<nat>, i: nat): nat {
    if q == [] then 0 else Count(q[1..], i) + if q[0] == i then 1 else 0
  }

  lemma {:induction false} CountAppend(q: seq<nat>, j: nat, i: nat)
    ensures Count(q + [j], i) == Count(q, i) + if j == i then 1 else 0
  {
    if q != [] {
      CountAppend(q[1..], j, i);
      assert (q + [j])[1..] == q[1..] + [j];
    } else {
      assert [j][1..] == [];
    }
  }

  ghost function TotalCost(ops: seq<Op>): nat {
    if ops == [] then 0 else TotalCost(ops[..|ops| - 1]) + Cost(ops[|ops| - 1])
  }

  lemma TotalCostAppend(ops: seq<Op>, op: Op)
    ensures TotalCost(ops + [op]) == TotalCost(ops) + Cost(op)
  {
    assert (ops + [op])[..|ops|] == ops;
  }

  lemma {:induction false} TotalCostPrefix(a: seq<Op>, b: seq<Op>)
    ensures TotalCost(a) <= TotalCost(a + b)
  {
    if b == [] {
      assert a + b == a;
    } else {
      TotalCostPrefix(a, b[..|b| - 1]);
      assert (a + b)[..|a + b| - 1] == a + b[..|b| - 1];
    }
  }

  // --- Invariants ------------------------------------------------------------------------------

  /** The writer holds the one token of the lane it is serving until it clears the bit. */
  function Hand(w: Writer, i: nat): nat {
    if (w.Took? || w.Stale? || w.Running? || w.Releasing? || w.Finishing? || w.Clearing?) && w.lane == i then 1 else 0
  }

  /** Every place a ready token for lane i can be. */
  ghost function Tokens(s: State, i: nat): nat {
    Count(s.ready, i) + Count(s.localReady, i) + Hand(s.writer, i) + HeldByAll(s.threads, Token, i)
  }

  ghost predicate TokenAt(s: State, i: nat)
    requires i < |s.lanes|
  {
    Tokens(s, i) == if s.lanes[i].scheduled then 1 else 0
  }

  function InHand(w: Writer, i: nat): seq<Op> {
    if (w.Running? || w.Releasing?) && w.lane == i then [w.op] else []
  }

  function PendingOps(l: Lane): seq<Op> {
    if l.pending.Some? then [l.pending.value] else []
  }

  /** Conservation and order: what the channel accepted is, in send order, what was finished, what
      the writer is executing, the pending slot and the channel; the slot is free while a turn runs. */
  ghost predicate OrderAt(s: State, i: nat)
    requires i < |s.lanes|
  {
    var l, w := s.lanes[i], s.writer;
    && l.sent == l.finished + InHand(w, i) + PendingOps(l) + l.queue
    && l.applied == l.finished + (if w.Releasing? then InHand(w, i) else [])
    && ((w.Stale? || w.Running? || w.Releasing? || w.Finishing? || w.Clearing? || w.Rechecking?) && w.lane == i ==>
        l.pending.None?)
  }

  /** The byte counter is exactly the cost of everything accepted and not released, plus what request
      threads have reserved and not yet queued; it never exceeds the lane's writer share. */
  ghost predicate BytesAt(c: Config, s: State, i: nat)
    requires i < |s.lanes| == c.Lanes()
  {
    var l := s.lanes[i];
    && l.queuedBytes + TotalCost(l.finished) == TotalCost(l.sent) + HeldByAll(s.threads, Bytes, i)
    && l.queuedBytes <= c.budget[i]
  }

  /** Flush bookkeeping: a barrier enters each lane at most once, an acknowledgement counts a lane
      whose barrier was executed, and a thread at lane j has its barrier in exactly the lanes below j. */
  ghost predicate FlushInv(s: State) {
    && (forall i :: 0 <= i < |s.lanes| ==> BarriersOnce(s.lanes[i].sent, |s.acks|))
    && (forall f :: 0 <= f < |s.acks| ==> s.acks[f] == |AckedLanes(s.lanes, f)|)
    && (forall t :: 0 <= t < |s.threads| ==> ProgressInv(s, s.threads[t]))
    && (forall t, u :: 0 <= t < u < |s.threads| && InFlush(s.threads[t]) && InFlush(s.threads[u]) ==>
          FlushOf(s.threads[t]) != FlushOf(s.threads[u]))
  }

  ghost predicate BarriersOnce(ops: seq<Op>, flushes: nat) {
    && (forall k :: 0 <= k < |ops| && ops[k].Barrier? ==> ops[k].flush < flushes)
    && (forall k, m :: 0 <= k < m < |ops| && ops[k].Barrier? ==> ops[k] != ops[m])
  }

  ghost function AckedLanes(lanes: seq<Lane>, f: nat): set<nat> {
    set i | 0 <= i < |lanes| && Barrier(f) in lanes[i].applied
  }

  predicate InFlush(p: Producer) {
    p.Flushing? || p.Awaiting? || ((p.Sent? || p.Won?) && p.resume.NextLane?)
  }

  function FlushOf(p: Producer): nat
    requires InFlush(p)
  {
    if p.Flushing? || p.Awaiting? then p.flush else p.resume.flush
  }

  ghost predicate ProgressInv(s: State, p: Producer) {
    InFlush(p) ==>
      && FlushOf(p) < |s.acks|
      && var next := if p.Flushing? then p.next else if p.Awaiting? then |s.lanes| else p.resume.next;
         forall i :: 0 <= i < |s.lanes| ==> (Barrier(FlushOf(p)) in s.lanes[i].sent <==> i < next)
  }

  ghost predicate Inv(c: Config, s: State) {
    && InRange(c, s)
    && (forall i :: 0 <= i < c.Lanes() ==> TokenAt(s, i))
    && (forall i :: 0 <= i < c.Lanes() ==> OrderAt(s, i))
    && (forall i :: 0 <= i < c.Lanes() ==> BytesAt(c, s, i))
    && FlushInv(s)
    && (s.writer.Blocked? ==> s.localReady == [])
  }

  lemma InitInv(c: Config, threadCount: nat)
    ensures Inv(c, Init(c, threadCount))
  {
    var s := Init(c, threadCount);
    forall i, kind | 0 <= i < c.Lanes() ensures HeldByAll(s.threads, kind, i) == 0 {
      HeldByNobody(s.threads, kind, i);
    }
  }

  // --- The writer's steps keep the invariants --------------------------------------------------

  lemma TakeTurnKeepsTokens(s: State, s': State, i: nat)
    requires WriterInRange(s.writer, |s.lanes|) && i < |s.lanes| && TokenAt(s, i)
    requires s.writer.Collecting? || s.writer.Popping? || s.writer.Blocked? || s.writer.Took? || s.writer.Stale?
    requires TakeTurn(s) == Some(s')
    ensures TokenAt(s', i)
  {
    hide HeldByAll;
    if (s.writer.Collecting? || s.writer.Blocked?) && s.ready != [] {
      CountAppend(s.localReady, s.ready[0], i);
    }
  }

  lemma FinishTurnKeepsTokens(s: State, s': State, i: nat)
    requires WriterInRange(s.writer, |s.lanes|) && i < |s.lanes| && TokenAt(s, i)
    requires s.writer.Finishing? || s.writer.Clearing? || s.writer.Rechecking? || s.writer.Rearming?
    requires FinishTurn(s) == Some(s')
    ensures TokenAt(s', i)
  {
    hide HeldByAll, Count;
    CountAppend(s.localReady, s.writer.lane, i);
  }

  lemma TakeTurnKeepsOrder(s: State, s': State, i: nat)
    requires WriterInRange(s.writer, |s.lanes|) && i < |s.lanes| && OrderAt(s, i)
    requires s.writer.Collecting? || s.writer.Popping? || s.writer.Blocked? || s.writer.Took? || s.writer.Stale?
    requires TakeTurn(s) == Some(s')
    ensures OrderAt(s', i)
  {
  }

  lemma RunTurnKeepsOrder(s: State, s': State, i: nat)
    requires WriterInRange(s.writer, |s.lanes|) && i < |s.lanes| && OrderAt(s, i)
    requires (s.writer.Running? || s.writer.Releasing?) && RunTurn(s) == Some(s')
    ensures OrderAt(s', i)
  {
  }

  lemma FinishTurnKeepsOrder(s: State, s': State, i: nat)
    requires WriterInRange(s.writer, |s.lanes|) && i < |s.lanes| && OrderAt(s, i)
    requires s.writer.Finishing? || s.writer.Clearing? || s.writer.Rechecking? || s.writer.Rearming?
    requires FinishTurn(s) == Some(s')
    ensures OrderAt(s', i)
  {
  }

  lemma QuietWriterKeepsBytes(c: Config, s: State, s': State, i: nat)
    requires |s.lanes| == c.Lanes() && WriterInRange(s.writer, c.Lanes()) && i < c.Lanes() && BytesAt(c, s, i)
    requires !s.writer.Releasing? && WriterNext(s) == Some(s')
    ensures BytesAt(c, s', i)
  {
    hide HeldByAll, TotalCost, Count;
  }

  /** Dropping the executed operation gives back exactly its own reservation. */
  lemma ReleaseKeepsBytes(c: Config, s: State, s': State, i: nat)
    requires |s.lanes| == c.Lanes() && WriterInRange(s.writer, c.Lanes()) && i < c.Lanes()
    requires BytesAt(c, s, i) && OrderAt(s, i)
    requires s.writer.Releasing? && RunTurn(s) == Some(s')
    ensures BytesAt(c, s', i)
  {
    if s.writer.lane == i {
      var l, op := s.lanes[i], s.writer.op;
      TotalCostAppend(l.finished, op);
      assert l.sent == (l.finished + [op]) + (PendingOps(l) + l.queue);
      TotalCostPrefix(l.finished + [op], PendingOps(l) + l.queue);
    }
  }

  lemma WriterKeepsLane(c: Config, s: State, s': State, i: nat)
    requires Inv(c, s) && WriterNext(s) == Some(s') && i < c.Lanes()
    ensures |s'.lanes| == |s.lanes| && TokenAt(s', i) && OrderAt(s', i) && BytesAt(c, s', i)
  {
    assert TokenAt(s, i) && OrderAt(s, i) && BytesAt(c, s, i);
    if s.writer.Running? || s.writer.Releasing? {
      RunTurnKeepsOrder(s, s', i);
    } else if s.writer.Finishing? || s.writer.Clearing? || s.writer.Rechecking? || s.writer.Rearming? {
      FinishTurnKeepsTokens(s, s', i);
      FinishTurnKeepsOrder(s, s', i);
    } else {
      TakeTurnKeepsTokens(s, s', i);
      TakeTurnKeepsOrder(s, s', i);
    }
    if s.writer.Releasing? { ReleaseKeepsBytes(c, s, s', i); } else { QuietWriterKeepsBytes(c, s, s', i); }
  }

  // --- The threads' steps keep the invariants --------------------------------------------------

  lemma {:induction false} HeldAtLeast(ts: seq<Producer>, t: nat, kind: Kind, i: nat)
    requires t < |ts|
    ensures HeldByAll(ts, kind, i) >= Held(ts[t], kind, i)
  {
    if t < |ts| - 1 {
      HeldAtLeast(ts[..|ts| - 1], t, kind, i);
    }
  }

  /** What is finished, or back in flight, never costs more than what was sent. */
  lemma FinishedIsPaid(s: State, i: nat)
    requires i < |s.lanes| && OrderAt(s, i)
    ensures TotalCost(s.lanes[i].finished) <= TotalCost(s.lanes[i].sent)
  {
    var l := s.lanes[i];
    assert l.sent == l.finished + (InHand(s.writer, i) + PendingOps(l) + l.queue);
    TotalCostPrefix(l.finished, InHand(s.writer, i) + PendingOps(l) + l.queue);
  }

  lemma ReserveKeepsBytes(c: Config, s: State, t: nat, s': State, i: nat)
    requires |s.lanes| == c.Lanes() && t < |s.threads| && ProducerInRange(s.threads[t], c.Lanes()) && i < c.Lanes()
    requires s.threads[t].Reserving? && BytesAt(c, s, i) && InsertNext(c, s, t) == Some(s')
    ensures BytesAt(c, s', i)
  {
    hide HeldByAll, TotalCost, Count;
    HeldUpdate(s.threads, t, s'.threads[t], Bytes, i);
  }

  lemma SendKeepsBytes(c: Config, s: State, t: nat, s': State, i: nat)
    requires |s.lanes| == c.Lanes() && t < |s.threads| && ProducerInRange(s.threads[t], c.Lanes()) && i < c.Lanes()
    requires (s.threads[t].Reserved? || s.threads[t].Returning?) && BytesAt(c, s, i)
    requires TotalCost(s.lanes[i].finished) <= TotalCost(s.lanes[i].sent) && InsertNext(c, s, t) == Some(s')
    ensures BytesAt(c, s', i)
  {
    hide HeldByAll, TotalCost, Count;
    HeldUpdate(s.threads, t, s'.threads[t], Bytes, i);
    HeldAtLeast(s.threads, t, Bytes, i);
    if s.threads[t].Reserved? {
      TotalCostAppend(s.lanes[i].sent, s.threads[t].op);
    }
  }

  lemma InsertKeepsTokens(c: Config, s: State, t: nat, s': State, i: nat)
    requires |s.lanes| == c.Lanes() && t < |s.threads| && ProducerInRange(s.threads[t], c.Lanes()) && i < c.Lanes()
    requires s.threads[t].Reserving? || s.threads[t].Reserved? || s.threads[t].Returning?
    requires TokenAt(s, i) && InsertNext(c, s, t) == Some(s')
    ensures TokenAt(s', i)
  {
    hide HeldByAll, Count;
    HeldUpdate(s.threads, t, s'.threads[t], Token, i);
  }

  lemma InsertKeepsOrder(c: Config, s: State, t: nat, s': State, i: nat)
    requires |s.lanes| == c.Lanes() && t < |s.threads| && ProducerInRange(s.threads[t], c.Lanes()) && i < c.Lanes()
    requires s.threads[t].Reserving? || s.threads[t].Reserved? || s.threads[t].Returning?
    requires OrderAt(s, i) && InsertNext(c, s, t) == Some(s')
    ensures OrderAt(s', i)
  {
  }

  lemma ScheduleKeepsTokens(s: State, t: nat, s': State, i: nat)
    requires t < |s.threads| && ProducerInRange(s.threads[t], |s.lanes|) && i < |s.lanes|
    requires (s.threads[t].Sent? || s.threads[t].Won?) && TokenAt(s, i) && ScheduleNext(s, t) == Some(s')
    ensures TokenAt(s', i)
  {
    hide HeldByAll, Count;
    HeldUpdate(s.threads, t, s'.threads[t], Token, i);
    HeldAtLeast(s.threads, t, Token, i);
    CountAppend(s.ready, s.threads[t].lane, i);
  }

  lemma ScheduleKeepsOrder(s: State, t: nat, s': State, i: nat)
    requires t < |s.threads| && ProducerInRange(s.threads[t], |s.lanes|) && i < |s.lanes|
    requires (s.threads[t].Sent? || s.threads[t].Won?) && OrderAt(s, i) && ScheduleNext(s, t) == Some(s')
    ensures OrderAt(s', i)
  {
  }

  lemma ScheduleKeepsBytes(c: Config, s: State, t: nat, s': State, i: nat)
    requires t < |s.threads| && ProducerInRange(s.threads[t], c.Lanes()) && i < |s.lanes| == c.Lanes()
    requires (s.threads[t].Sent? || s.threads[t].Won?) && BytesAt(c, s, i) && ScheduleNext(s, t) == Some(s')
    ensures BytesAt(c, s', i)
  {
    hide HeldByAll, TotalCost, Count;
    HeldUpdate(s.threads, t, s'.threads[t], Bytes, i);
  }

  lemma FlushKeepsTokens(c: Config, s: State, t: nat, s': State, i: nat)
    requires |s.lanes| == c.Lanes() && t < |s.threads| && i < c.Lanes()
    requires (s.threads[t].Flushing? || s.threads[t].Awaiting?) && TokenAt(s, i) && FlushNext(c, s, t) == Some(s')
    ensures TokenAt(s', i)
  {
    hide HeldByAll, Count;
    HeldUpdate(s.threads, t, s'.threads[t], Token, i);
  }

  lemma FlushKeepsBytes(c: Config, s: State, t: nat, s': State, i: nat)
    requires |s.lanes| == c.Lanes() && t < |s.threads| && i < c.Lanes()
    requires (s.threads[t].Flushing? || s.threads[t].Awaiting?) && BytesAt(c, s, i) && FlushNext(c, s, t) == Some(s')
    ensures BytesAt(c, s', i)
  {
    hide HeldByAll, TotalCost, Count;
    HeldUpdate(s.threads, t, s'.threads[t], Bytes, i);
    TotalCostAppend(s.lanes[i].sent, Barrier(s.threads[t].flush));
  }

  lemma FlushKeepsOrder(c: Config, s: State, t: nat, s': State, i: nat)
    requires |s.lanes| == c.Lanes() && t < |s.threads| && i < c.Lanes()
    requires s.threads[t].Flushing? || s.threads[t].Awaiting?
    requires OrderAt(s, i) && FlushNext(c, s, t) == Some(s')
    ensures OrderAt(s', i)
  {
  }

  lemma ThreadKeepsLane(c: Config, s: State, t: nat, s': State, i: nat)
    requires Inv(c, s) && t < |s.threads| && ThreadNext(c, s, t) == Some(s') && i < c.Lanes()
    ensures |s'.lanes| == |s.lanes| && TokenAt(s', i) && OrderAt(s', i) && BytesAt(c, s', i)
  {
    assert TokenAt(s, i) && OrderAt(s, i) && BytesAt(c, s, i);
    if s.threads[t].Sent? || s.threads[t].Won? {
      ScheduleKeepsTokens(s, t, s', i);
      ScheduleKeepsOrder(s, t, s', i);
      ScheduleKeepsBytes(c, s, t, s', i);
    } else if s.threads[t].Flushing? || s.threads[t].Awaiting? {
      FlushKeepsTokens(c, s, t, s', i);
      FlushKeepsBytes(c, s, t, s', i);
      FlushKeepsOrder(c, s, t, s', i);
    } else {
      FinishedIsPaid(s, i);
      InsertKeepsTokens(c, s, t, s', i);
      InsertKeepsOrder(c, s, t, s', i);
      if s.threads[t].Reserving? { ReserveKeepsBytes(c, s, t, s', i); } else { SendKeepsBytes(c, s, t, s', i); }
    }
  }

  // --- Flush bookkeeping -----------------------------------------------------------------------

  /** Executing a barrier for the first time adds its lane to the acknowledged ones. */
  lemma AckAddsLane(s: State, s': State, f: nat)
    requires s.writer.Running? && s.writer.lane < |s.lanes| && RunTurn(s) == Some(s') && f < |s.acks|
    requires OrderAt(s, s.writer.lane) && BarriersOnce(s.lanes[s.writer.lane].sent, |s.acks|)
    requires s.acks[f] == |AckedLanes(s.lanes, f)|
    ensures s'.acks[f] == |AckedLanes(s'.lanes, f)|
  {
    var i, op := s.writer.lane, s.writer.op;
    var l := s.lanes[i];
    if op == Barrier(f) {
      assert l.sent[|l.finished|] == op;
      assert op !in l.applied by {
        assert forall k :: 0 <= k < |l.finished| ==> l.sent[k] == l.finished[k];
      }
      assert AckedLanes(s'.lanes, f) == AckedLanes(s.lanes, f) + {i};
    } else {
      assert AckedLanes(s'.lanes, f) == AckedLanes(s.lanes, f);
    }
  }

  lemma SameAppliedSameAcks(a: seq<Lane>, b: seq<Lane>, f: nat)
    requires |a| == |b| && forall i :: 0 <= i < |a| ==> a[i].applied == b[i].applied
    ensures AckedLanes(a, f) == AckedLanes(b, f)
  {
  }

  lemma WriterKeepsSent(s: State, s': State)
    requires WriterInRange(s.writer, |s.lanes|) && WriterNext(s) == Some(s')
    ensures |s'.lanes| == |s.lanes| && s'.threads == s.threads && |s'.acks| == |s.acks|
    ensures forall i :: 0 <= i < |s.lanes| ==> s'.lanes[i].sent == s.lanes[i].sent
    ensures !s.writer.Running? ==>
              s'.acks == s.acks && forall i :: 0 <= i < |s.lanes| ==> s'.lanes[i].applied == s.lanes[i].applied
  {
  }

  lemma WriterKeepsFlush(c: Config, s: State, s': State)
    requires Inv(c, s) && WriterNext(s) == Some(s')
    ensures FlushInv(s')
  {
    WriterKeepsSent(s, s');
    forall f | 0 <= f < |s'.acks| ensures s'.acks[f] == |AckedLanes(s'.lanes, f)| {
      if s.writer.Running? {
        AckAddsLane(s, s', f);
      } else {
        SameAppliedSameAcks(s.lanes, s'.lanes, f);
      }
    }
    forall t | 0 <= t < |s'.threads| ensures ProgressInv(s', s'.threads[t]) {
      assert ProgressInv(s, s.threads[t]);
    }
  }

  lemma ThreadSends(c: Config, s: State, t: nat, s': State)
    requires |s.lanes| == c.Lanes() && t < |s.threads| && ProducerInRange(s.threads[t], c.Lanes())
    requires ThreadNext(c, s, t) == Some(s')
    ensures |s'.lanes| == |s.lanes| && s'.acks == s.acks && |s'.threads| == |s.threads|
    ensures s'.threads == s.threads[t := s'.threads[t]]
    ensures forall i :: 0 <= i < |s.lanes| ==> s'.lanes[i].applied == s.lanes[i].applied
    ensures s.threads[t].Flushing? && s.threads[t].next < |s.lanes| ==>
              s'.threads[t] == Sent(s.threads[t].next, NextLane(s.threads[t].flush, s.threads[t].next + 1))
    ensures !(s.threads[t].Flushing? && s.threads[t].next < |s.lanes|) && InFlush(s'.threads[t]) ==>
              InFlush(s.threads[t]) && FlushOf(s'.threads[t]) == FlushOf(s.threads[t])
  {
  }

  function NewlySent(c: Config, s: State, p: Producer, i: nat): seq<Op>
    requires i < |s.lanes|
  {
    if p.Flushing? && p.next == i then [Barrier(p.flush)]
    else if p.Reserved? && p.lane == i && |s.lanes[i].queue| < c.laneCapacity then [p.op]
    else []
  }

  lemma ThreadSentGrowth(c: Config, s: State, t: nat, s': State, i: nat)
    requires |s.lanes| == c.Lanes() && t < |s.threads| && ProducerInRange(s.threads[t], c.Lanes())
    requires ThreadNext(c, s, t) == Some(s') && |s'.lanes| == |s.lanes| && i < |s.lanes|
    ensures s'.lanes[i].sent == s.lanes[i].sent + NewlySent(c, s, s.threads[t], i)
  {
  }

  lemma ThreadKeepsProgress(c: Config, s: State, t: nat, s': State, u: nat)
    requires Inv(c, s) && t < |s.threads| && ThreadNext(c, s, t) == Some(s') && u < |s'.threads| == |s.threads|
    ensures ProgressInv(s', s'.threads[u])
  {
    ThreadSends(c, s, t, s');
    assert ProgressInv(s, s.threads[u]);
    forall i | 0 <= i < |s.lanes| {
      ThreadSentGrowth(c, s, t, s', i);
    }
  }

  lemma ThreadKeepsBarriers(c: Config, s: State, t: nat, s': State, i: nat)
    requires Inv(c, s) && t < |s.threads| && ThreadNext(c, s, t) == Some(s') && i < |s.lanes| == |s'.lanes|
    ensures BarriersOnce(s'.lanes[i].sent, |s.acks|)
  {
    ThreadSentGrowth(c, s, t, s', i);
    assert BarriersOnce(s.lanes[i].sent, |s.acks|) && ProgressInv(s, s.threads[t]);
    assert ProducerInRange(s.threads[t], c.Lanes());
  }

  lemma ThreadKeepsFlush(c: Config, s: State, t: nat, s': State)
    requires Inv(c, s) && t < |s.threads| && ThreadNext(c, s, t) == Some(s')
    ensures FlushInv(s')
  {
    ThreadSends(c, s, t, s');
    forall i | 0 <= i < |s'.lanes| ensures BarriersOnce(s'.lanes[i].sent, |s'.acks|) {
      ThreadKeepsBarriers(c, s, t, s', i);
    }
    forall f | 0 <= f < |s'.acks| ensures s'.acks[f] == |AckedLanes(s'.lanes, f)| {
      SameAppliedSameAcks(s.lanes, s'.lanes, f);
    }
    forall u | 0 <= u < |s'.threads| ensures ProgressInv(s', s'.threads[u]) {
      ThreadKeepsProgress(c, s, t, s', u);
    }
  }

  lemma StartFlushKeepsFlush(c: Config, s: State, t: nat, s': State)
    requires Inv(c, s) && Step(c, s, StartFlush(t)) == Some(s')
    ensures FlushInv(s')
  {
    var f := |s.acks|;
    forall i | 0 <= i < |s.lanes| ensures Barrier(f) !in s.lanes[i].sent && Barrier(f) !in s.lanes[i].applied {
      assert BarriersOnce(s.lanes[i].sent, f) && OrderAt(s, i);
    }
    assert AckedLanes(s'.lanes, f) == {};
    forall u | 0 <= u < |s'.threads| ensures ProgressInv(s', s'.threads[u]) {
      assert ProgressInv(s, s.threads[u]);
    }
  }

  // --- The invariant over steps and runs -------------------------------------------------------

  lemma StartKeepsLane(c: Config, s: State, action: Action, s': State, i: nat)
    requires Inv(c, s) && i < c.Lanes() && Step(c, s, action) == Some(s')
    requires action.StartInsert? || action.StartFlush? || action.SpuriousFailure?
    ensures s'.lanes == s.lanes && TokenAt(s', i) && OrderAt(s', i) && BytesAt(c, s', i)
  {
    hide HeldByAll, TotalCost, Count;
    var t := action.thread;
    HeldUpdate(s.threads, t, s'.threads[t], Token, i);
    HeldUpdate(s.threads, t, s'.threads[t], Bytes, i);
    assert TokenAt(s, i) && OrderAt(s, i) && BytesAt(c, s, i);
  }

  lemma StepKeepsFlush(c: Config, s: State, action: Action, s': State)
    requires Inv(c, s) && Step(c, s, action) == Some(s')
    ensures FlushInv(s')
  {
    match action {
      case WriterStep => WriterKeepsFlush(c, s, s');
      case Advance(t) => ThreadKeepsFlush(c, s, t, s');
      case StartFlush(t) => StartFlushKeepsFlush(c, s, t, s');
      case StartInsert(t, _, _) =>
        forall u | 0 <= u < |s'.threads| ensures ProgressInv(s', s'.threads[u]) { assert ProgressInv(s, s.threads[u]); }
      case SpuriousFailure(t) =>
        forall u | 0 <= u < |s'.threads| ensures ProgressInv(s', s'.threads[u]) { assert ProgressInv(s, s.threads[u]); }
    }
  }

  lemma TakeTurnKeepsRange(c: Config, s: State, s': State)
    requires InRange(c, s)
    requires s.writer.Collecting? || s.writer.Popping? || s.writer.Blocked? || s.writer.Took? || s.writer.Stale?
    requires TakeTurn(s) == Some(s')
    ensures InRange(c, s') && (s'.writer.Blocked? ==> s'.localReady == [])
  {
  }

  lemma WriterKeepsRange(c: Config, s: State, s': State)
    requires InRange(c, s) && WriterNext(s) == Some(s')
    ensures InRange(c, s') && (s'.writer.Blocked? ==> s'.localReady == [])
  {
    if s.writer.Collecting? || s.writer.Popping? || s.writer.Blocked? || s.writer.Took? || s.writer.Stale? {
      TakeTurnKeepsRange(c, s, s');
    }
  }

  lemma ThreadKeepsRange(c: Config, s: State, t: nat, s': State)
    requires InRange(c, s) && t < |s.threads| && ThreadNext(c, s, t) == Some(s')
    ensures InRange(c, s') && s'.writer == s.writer && s'.localReady == s.localReady
  {
  }

  lemma StepKeepsInv(c: Config, s: State, action: Action, s': State)
    requires Inv(c, s) && Step(c, s, action) == Some(s')
    ensures Inv(c, s')
  {
    StepKeepsFlush(c, s, action, s');
    match action {
      case WriterStep => WriterKeepsRange(c, s, s');
      case Advance(t) => ThreadKeepsRange(c, s, t, s');
      case _ =>
    }
    forall i | 0 <= i < c.Lanes()
      ensures |s'.lanes| == c.Lanes() && TokenAt(s', i) && OrderAt(s', i) && BytesAt(c, s', i)
    {
      match action {
        case WriterStep => WriterKeepsLane(c, s, s', i);
        case Advance(t) => ThreadKeepsLane(c, s, t, s', i);
        case _ => StartKeepsLane(c, s, action, s', i);
      }
    }
  }
}
