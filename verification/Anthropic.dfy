/** The Anthropic dialect: one parsed event to canonical chunks, a whole event stream, and the
    buffered response. Parsing JSON is a parameter; its results are values of `Event`. */
module Anthropic {
  import opened Prelude
  import opened Chunks

  /** One `data:` payload, reduced to the fields the translator reads. */
  datatype Event =
    | Malformed
    | MessageStart(id: Option<string>, model: Option<string>, inputTokens: Option<nat>,
                   cacheRead: Option<nat>, cacheCreation: Option<nat>)
    | ToolBlockStart(toolId: Option<string>, name: Option<string>)
    | OtherBlockStart
    | BlockStop
    | TextDelta(text: Option<string>)
    | InputJsonDelta(partial: Option<string>)
    | OtherDelta
    | MessageDelta(stopReason: Option<string>, outputTokens: Option<nat>)
    | MessageStop
    | ErrorEvent(errorType: Option<string>)
    | OtherEvent

  datatype Failure = ParseError | Upstream(errorType: string) | Transport

  datatype Verdict = Continue | Done | Failed(failure: Failure)

  /** The per-stream state as a value. */
  datatype State = State(
    id: string,
    model: string,
    created: nat,
    inputTokens: U32,
    cacheRead: Option<U32>,
    cacheCreation: Option<U32>,
    nextTool: U32,
    currentTool: Option<U32>,
    sawToolUse: bool)

  const FRESH := State("", "", 0, 0, None, None, 0, None, false)

  function MapStopReason(s: string): string {
    if s == "end_turn" || s == "stop_sequence" then "stop"
    else if s == "max_tokens" then "length"
    else s
  }

  /** The OpenAI-shaped token counts: the prompt is fresh + cache read + cache write. */
  function UsageOf(input: U32, cacheRead: Option<U32>, cacheCreation: Option<U32>, output: U32): Usage {
    var prompt := AsU32(AsU32(input + OrElse(cacheRead, 0)) + OrElse(cacheCreation, 0));
    Usage(prompt, output, AsU32(prompt + output), cacheRead, cacheCreation)
  }

  // --- One event -------------------------------------------------------------------------------

  function NextState(s: State, e: Event, now: nat): State {
    match e
    case MessageStart(id, model, input, read, creation) =>
      s.(id := OrElse(id, "anthropic-stream"), model := OrElse(model, ""), created := now,
         inputTokens := AsU32(OrElse(input, 0)), cacheRead := MapU32(read), cacheCreation := MapU32(creation))
    case ToolBlockStart(_, _) =>
      s.(nextTool := AsU32(s.nextTool + 1), currentTool := Some(s.nextTool), sawToolUse := true)
    case OtherBlockStart => s.(currentTool := None)
    case BlockStop => s.(currentTool := None)
    case _ => s
  }

  /** A chunk with one choice, stamped with the stream's identity. */
  function Single(s: State, delta: Delta, finish: Option<string>, usage: Option<Usage>): Chunk {
    Chunk(s.id, s.created, s.model, [ChunkChoice(0, delta, finish, None)], usage, None, None)
  }

  function ToolDelta(t: ToolCallChunk): Delta { NO_DELTA.(toolCalls := Some([t])) }

  function FirstFragment(index: U32, id: Option<string>, name: Option<string>): ToolCallChunk {
    ToolCallChunk(index, Some(OrElse(id, "")), Some("function"), Some(FunctionChunk(Some(OrElse(name, "")), Some(""))))
  }

  function ArgumentsFragment(index: U32, partial: string): ToolCallChunk {
    ToolCallChunk(index, None, None, Some(FunctionChunk(None, Some(partial))))
  }

  function FinishFor(stopReason: string, sawToolUse: bool): string {
    if stopReason == "tool_use" || sawToolUse then "tool_calls" else MapStopReason(stopReason)
  }

  function Emits(s: State, e: Event, now: nat): seq<Chunk> {
    match e
    case MessageStart(_, _, _, _, _) =>
      [Single(NextState(s, e, now), NO_DELTA.(role := Some("assistant")), None, None)]
    case ToolBlockStart(id, name) =>
      [Single(s, ToolDelta(FirstFragment(s.nextTool, id, name)), None, None)]
    case TextDelta(text) =>
      if text.Some? then [Single(s, NO_DELTA.(content := text), None, None)] else []
    case InputJsonDelta(partial) =>
      if s.currentTool.Some? && partial.Some?
      then [Single(s, ToolDelta(ArgumentsFragment(s.currentTool.value, partial.value)), None, None)]
      else []
    case MessageDelta(stop, output) =>
      var finish := if stop.Some? then Some(FinishFor(stop.value, s.sawToolUse)) else None;
      var usage := UsageOf(s.inputTokens, s.cacheRead, s.cacheCreation, AsU32(OrElse(output, 0)));
      [Single(s, NO_DELTA, finish, Some(usage))]
    case _ => []
  }

  function VerdictOf(e: Event): Verdict {
    match e
    case MessageStop => Done
    case Malformed => Failed(ParseError)
    case ErrorEvent(t) => Failed(Upstream(OrElse(t, "error")))
    case _ => Continue
  }

  /** The translator's state object, and the translator as its method. */
  class StreamState {
    var id: string
    var model: string
    var created: nat
    var inputTokens: U32
    var cacheRead: Option<U32>
    var cacheCreation: Option<U32>
    var nextTool: U32
    var currentTool: Option<U32>
    var sawToolUse: bool

    ghost function Value(): State
      reads this
    {
      State(id, model, created, inputTokens, cacheRead, cacheCreation, nextTool, currentTool, sawToolUse)
    }

    constructor ()
      ensures Value() == FRESH
    {
      id, model, created := "", "", 0;
      inputTokens, cacheRead, cacheCreation := 0, None, None;
      nextTool, currentTool, sawToolUse := 0, None, false;
    }

    method Stamp(delta: Delta, finish: Option<string>, usage: Option<Usage>) returns (c: Chunk)
      ensures c == Single(Value(), delta, finish, usage)
    {
      c := Chunk(id, created, model, [ChunkChoice(0, delta, finish, None)], usage, None, None);
    }

    /** The first event of a message: identity and prompt counts are kept, the role goes out. */
    method StartMessage(event: Event, now: nat) returns (out: seq<Chunk>)
      requires event.MessageStart?
      modifies this
      ensures Value() == NextState(old(Value()), event, now)
      ensures out == Emits(old(Value()), event, now)
    {
      id := OrElse(event.id, "anthropic-stream");
      model := OrElse(event.model, "");
      created := now;
      inputTokens := AsU32(OrElse(event.inputTokens, 0));
      cacheRead := MapU32(event.cacheRead);
      cacheCreation := MapU32(event.cacheCreation);
      var c := Stamp(NO_DELTA.(role := Some("assistant")), None, None);
      out := [c];
    }

    /** `now` is the wall clock, read when a message starts. */
    method Translate(event: Event, now: nat) returns (out: seq<Chunk>, verdict: Verdict)
      modifies this
      ensures Value() == NextState(old(Value()), event, now)
      ensures out == Emits(old(Value()), event, now)
      ensures verdict == VerdictOf(event)
    {
      hide UsageOf, MapStopReason;
      out, verdict := [], Continue;
      match event
      case Malformed =>
        verdict := Failed(ParseError);
      case MessageStart(_, _, _, _, _) =>
        out := StartMessage(event, now);
      case ToolBlockStart(toolId, name) =>
        var toolIndex := nextTool;
        nextTool := AsU32(nextTool + 1);
        currentTool := Some(toolIndex);
        sawToolUse := true;
        var c := Stamp(ToolDelta(FirstFragment(toolIndex, toolId, name)), None, None);
        out := [c];
      case OtherBlockStart =>
        currentTool := None;
      case BlockStop =>
        currentTool := None;
      case TextDelta(text) =>
        if text.Some? {
          var c := Stamp(NO_DELTA.(content := text), None, None);
          out := [c];
        }
      case InputJsonDelta(partial) =>
        if currentTool.Some? {
          if partial.Some? {
            var c := Stamp(ToolDelta(ArgumentsFragment(currentTool.value, partial.value)), None, None);
            out := [c];
          }
        }
      case OtherDelta =>
      case MessageDelta(stopReason, output) =>
        var finish := None;
        if stopReason.Some? {
          finish := Some(FinishFor(stopReason.value, sawToolUse));
        }
        var usage := UsageOf(inputTokens, cacheRead, cacheCreation, AsU32(OrElse(output, 0)));
        var c := Stamp(NO_DELTA, finish, Some(usage));
        out := [c];
      case MessageStop =>
        verdict := Done;
      case ErrorEvent(t) =>
        verdict := Failed(Upstream(OrElse(t, "error")));
      case OtherEvent =>
    }
  }

  // --- A stream of events ----------------------------------------------------------------------

  datatype Outcome = Outcome(chunks: seq<Chunk>, verdict: Verdict, state: State)

  /** Everything a stream of events yields, up to the first one that ends it. */
  function Run(s: State, events: seq<Event>, now: nat): Outcome
    decreases |events|
  {
    if events == [] then Outcome([], Continue, s)
    else if !VerdictOf(events[0]).Continue? then Outcome([], VerdictOf(events[0]), s)
    else
      var rest := Run(NextState(s, events[0], now), events[1..], now);
      rest.(chunks := Emits(s, events[0], now) + rest.chunks)
  }

  /** What follows an outcome: nothing once the stream has ended. */
  function Then(a: Outcome, b: Outcome): Outcome {
    if a.verdict.Continue? then b.(chunks := a.chunks + b.chunks) else a
  }

  lemma {:induction false} RunAppend(s: State, a: seq<Event>, b: seq<Event>, now: nat)
    ensures Run(s, a + b, now) == Then(Run(s, a, now), Run(Run(s, a, now).state, b, now))
    decreases |a|
  {
    hide Emits, NextState, VerdictOf;
    if a == [] {
      assert a + b == b;
    } else {
      assert (a + b)[0] == a[0] && (a + b)[1..] == a[1..] + b;
      RunAppend(NextState(s, a[0], now), a[1..], b, now);
    }
  }

  /** OpenAI clients want identity on every chunk: between two message starts all chunks carry the
      same id, model and creation time, and each has exactly choice 0. */
  lemma {:induction false} ChunksCarryIdentity(s: State, events: seq<Event>, now: nat)
    requires forall i :: 0 <= i < |events| ==> !events[i].MessageStart?
    ensures forall c :: c in Run(s, events, now).chunks ==>
      && c.id == s.id && c.model == s.model && c.created == s.created
      && |c.choices| == 1 && c.choices[0].index == 0
    decreases |events|
  {
    if events != [] && VerdictOf(events[0]).Continue? {
      ChunksCarryIdentity(NextState(s, events[0], now), events[1..], now);
    }
  }

  // --- Tool-call indices -----------------------------------------------------------------------

  /** The tool-call deltas of a chunk list, in order. */
  function ToolChunks(chunks: seq<Chunk>): seq<ToolCallChunk> {
    if chunks == [] then [] else
      (var cs := chunks[0].choices;
       if |cs| == 1 && cs[0].delta.toolCalls.Some? then cs[0].delta.toolCalls.value else [])
      + ToolChunks(chunks[1..])
  }

  /** Fragment by fragment: the k-th opening fragment carries index `first + k`, and an arguments
      fragment carries the index of the latest opening fragment before it, or `current` before any. */
  ghost predicate WellIndexed(ts: seq<ToolCallChunk>, first: nat, current: Option<nat>)
    decreases |ts|
  {
    ts == [] ||
    if ts[0].id.Some? then ts[0].index == AsU32(first) && WellIndexed(ts[1..], first + 1, Some(AsU32(first)))
    else Some(ts[0].index as nat) == current && WellIndexed(ts[1..], first, current)
  }

  /** A chunk's own tool-call deltas, one event at a time. */
  function EventToolChunks(s: State, e: Event): seq<ToolCallChunk> {
    match e
    case ToolBlockStart(id, name) => [FirstFragment(s.nextTool, id, name)]
    case InputJsonDelta(partial) =>
      if s.currentTool.Some? && partial.Some? then [ArgumentsFragment(s.currentTool.value, partial.value)] else []
    case _ => []
  }

  lemma EventToolChunksAreEmitted(s: State, e: Event, now: nat, rest: seq<Chunk>)
    ensures ToolChunks(Emits(s, e, now) + rest) == EventToolChunks(s, e) + ToolChunks(rest)
  {
    var out := Emits(s, e, now);
    if out == [] {
      assert out + rest == rest;
    } else {
      assert out == [out[0]] && (out + rest)[1..] == rest;
    }
  }

  /** Over any event stream at all, tool calls get consecutive indices from 0 (modulo the counter's
      width), and every arguments fragment belongs to the latest call opened. */
  lemma {:induction false} IndicesAreDense(s: State, events: seq<Event>, now: nat, first: nat, current: Option<nat>)
    requires s.nextTool == AsU32(first)
    requires s.currentTool.Some? ==> current == Some(s.currentTool.value)
    ensures WellIndexed(ToolChunks(Run(s, events, now).chunks), first, current)
    decreases |events|
  {
    if events != [] && VerdictOf(events[0]).Continue? {
      var e, s' := events[0], NextState(s, events[0], now);
      var rest := Run(s', events[1..], now);
      EventToolChunksAreEmitted(s, e, now, rest.chunks);
      var mine, after := EventToolChunks(s, e), ToolChunks(rest.chunks);
      if e.ToolBlockStart? {
        assert AsU32(s.nextTool + 1) == AsU32(first + 1);
        IndicesAreDense(s', events[1..], now, first + 1, Some(AsU32(first)));
        assert (mine + after)[1..] == after;
      } else {
        IndicesAreDense(s', events[1..], now, first, current);
        if mine == [] {
          assert mine + after == after;
        } else {
          assert (mine + after)[1..] == after;
        }
      }
    }
  }

  /** Once a block is closed, no fragment attaches to it: until the next tool block opens, no
      tool-call delta is emitted. */
  lemma {:induction false} ClosedBlockTakesNoFragment(s: State, events: seq<Event>, now: nat)
    requires s.currentTool.None?
    requires forall i :: 0 <= i < |events| ==> !events[i].ToolBlockStart?
    ensures ToolChunks(Run(s, events, now).chunks) == []
    decreases |events|
  {
    if events != [] && VerdictOf(events[0]).Continue? {
      var s' := NextState(s, events[0], now);
      EventToolChunksAreEmitted(s, events[0], now, Run(s', events[1..], now).chunks);
      ClosedBlockTakesNoFragment(s', events[1..], now);
    }
  }

  // --- Events that change nothing --------------------------------------------------------------

  /** Pings and event types the translator does not know, at any place in the stream. */
  predicate IsNoise(e: Event) { e.OtherEvent? || e.OtherDelta? }

  function WithoutNoise(events: seq<Event>): seq<Event> {
    if events == [] then []
    else if IsNoise(events[0]) then WithoutNoise(events[1..])
    else [events[0]] + WithoutNoise(events[1..])
  }

  lemma {:induction false} NoiseIsInvisible(s: State, events: seq<Event>, now: nat)
    ensures Run(s, WithoutNoise(events), now) == Run(s, events, now)
    decreases |events|
  {
    if events != [] {
      var s' := NextState(s, events[0], now);
      NoiseIsInvisible(s', events[1..], now);
      if IsNoise(events[0]) {
        assert s' == s;
      } else {
        var kept := WithoutNoise(events);
        assert kept[0] == events[0] && kept[1..] == WithoutNoise(events[1..]);
      }
    }
  }
}
