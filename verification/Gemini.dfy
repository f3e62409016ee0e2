/** The Gemini dialect: partial responses to canonical chunks, and the buffered fold beside it. */
module Gemini {
  import opened Prelude
  import opened Chunks

  /** A part of a candidate's content; `J` is the type of JSON values. */
  datatype Part<J> =
    | TextPart(text: string)
    | FunctionCall(name: Option<string>, args: Option<J>)
    | OtherPart

  datatype TokenCounts = TokenCounts(
    prompt: Option<nat>, candidates: Option<nat>, thoughts: Option<nat>, total: Option<nat>, cached: Option<nat>)

  /** One `data:` payload, reduced to the fields the translator reads. */
  datatype Frame<J> =
    | Malformed
    | ErrorFrame(status: Option<string>, code: Option<nat>)
    | NoCandidate
    | Candidate(parts: Option<seq<Part<J>>>, finishReason: Option<string>, counts: Option<TokenCounts>)

  datatype Failure = ParseError | Upstream(status: string)

  datatype State = State(nextTool: U32, sawToolCall: bool)

  const FRESH := State(0, false)

  function MapFinish(reason: string): string {
    if reason == "STOP" then "stop"
    else if reason == "MAX_TOKENS" then "length"
    else if reason == "SAFETY" || reason == "RECITATION" then "content_filter"
    else reason
  }

  function FinishFor(reason: string, sawToolCall: bool): string {
    if sawToolCall then "tool_calls" else MapFinish(reason)
  }

  /** Decimal notation, as `format!("{n}")` prints it. */
  function Decimal(n: nat): string {
    if n < 10 then [('0' as int + n) as char] else Decimal(n / 10) + [('0' as int + n % 10) as char]
  }

  /** Thinking tokens count as completion tokens; the sum is taken in `u64`. */
  function UsageOf(c: TokenCounts): Usage {
    Usage(AsU32(OrElse(c.prompt, 0)),
          AsU32((OrElse(c.candidates, 0) + OrElse(c.thoughts, 0)) % (U64_MAX + 1)),
          AsU32(OrElse(c.total, 0)), MapU32(c.cached), None)
  }

  function Arguments<J>(args: Option<J>, render: J -> string): string {
    if args.Some? then render(args.value) else "{}"
  }

  // --- One part, one frame ---------------------------------------------------------------------

  /** The identity a stream stamps on its chunks. */
  datatype Stamp = Stamp(id: string, model: string, created: nat)

  function Single(st: Stamp, delta: Delta, finish: Option<string>, usage: Option<Usage>): Chunk {
    Chunk(st.id, st.created, st.model, [ChunkChoice(0, delta, finish, None)], usage, None, None)
  }

  function WholeCall<J>(index: U32, name: Option<string>, args: Option<J>, render: J -> string): ToolCallChunk {
    ToolCallChunk(index, Some("call_" + Decimal(index)), Some("function"),
                  Some(FunctionChunk(Some(OrElse(name, "")), Some(Arguments(args, render)))))
  }

  function AfterPart<J>(s: State, p: Part<J>): State {
    if p.FunctionCall? then State(AsU32(s.nextTool + 1), true) else s
  }

  function PartEmits<J>(s: State, p: Part<J>, st: Stamp, render: J -> string): seq<Chunk> {
    match p
    case TextPart(text) => if text == "" then [] else [Single(st, NO_DELTA.(content := Some(text)), None, None)]
    case FunctionCall(name, args) =>
      [Single(st, NO_DELTA.(toolCalls := Some([WholeCall(s.nextTool, name, args, render)])), None, None)]
    case OtherPart => []
  }

  function AfterParts<J>(s: State, parts: seq<Part<J>>): State
    decreases |parts|
  {
    if parts == [] then s else AfterParts(AfterPart(s, parts[0]), parts[1..])
  }

  function PartsEmit<J>(s: State, parts: seq<Part<J>>, st: Stamp, render: J -> string): seq<Chunk>
    decreases |parts|
  {
    if parts == [] then [] else
      PartEmits(s, parts[0], st, render) + PartsEmit(AfterPart(s, parts[0]), parts[1..], st, render)
  }

  function PartsOf<J>(f: Frame<J>): seq<Part<J>> {
    if f.Candidate? && f.parts.Some? then f.parts.value else []
  }

  function NextState<J>(s: State, f: Frame<J>): State { AfterParts(s, PartsOf(f)) }

  function FinishEmits<J>(s: State, f: Frame<J>, st: Stamp): seq<Chunk> {
    if f.Candidate? && f.finishReason.Some? then
      [Single(st, NO_DELTA, Some(FinishFor(f.finishReason.value, s.sawToolCall)),
              if f.counts.Some? then Some(UsageOf(f.counts.value)) else None)]
    else []
  }

  function Emits<J>(s: State, f: Frame<J>, st: Stamp, render: J -> string): seq<Chunk> {
    PartsEmit(s, PartsOf(f), st, render) + FinishEmits(NextState(s, f), f, st)
  }

  function ErrorName(status: Option<string>, code: Option<nat>): string {
    OrElse(status, if code.Some? then Decimal(code.value) else "error")
  }

  function FailureOf<J>(f: Frame<J>): Option<Failure> {
    match f
    case Malformed => Some(ParseError)
    case ErrorFrame(status, code) => Some(Upstream(ErrorName(status, code)))
    case _ => None
  }

  lemma {:induction false} PartsSnoc<J>(s: State, parts: seq<Part<J>>, p: Part<J>, st: Stamp, render: J -> string)
    ensures AfterParts(s, parts + [p]) == AfterPart(AfterParts(s, parts), p)
    ensures PartsEmit(s, parts + [p], st, render)
         == PartsEmit(s, parts, st, render) + PartEmits(AfterParts(s, parts), p, st, render)
    decreases |parts|
  {
    var all := parts + [p];
    if parts == [] {
      assert all[0] == p && all[1..] == [];
      assert AfterParts<J>(AfterPart(s, p), []) == AfterPart(s, p);
    } else {
      assert all[0] == parts[0] && all[1..] == parts[1..] + [p];
      PartsSnoc(AfterPart(s, parts[0]), parts[1..], p, st, render);
    }
  }

  class StreamState {
    var nextTool: U32
    var sawToolCall: bool

    ghost function Value(): State
      reads this
    {
      State(nextTool, sawToolCall)
    }

    constructor ()
      ensures Value() == FRESH
    {
      nextTool, sawToolCall := 0, false;
    }

    method TranslateParts<J>(parts: seq<Part<J>>, st: Stamp, render: J -> string) returns (out: seq<Chunk>)
      modifies this
      ensures Value() == AfterParts(old(Value()), parts)
      ensures out == PartsEmit(old(Value()), parts, st, render)
    {
      out := [];
      for k := 0 to |parts|
        invariant Value() == AfterParts(old(Value()), parts[..k])
        invariant out == PartsEmit(old(Value()), parts[..k], st, render)
      {
        assert parts[..k + 1] == parts[..k] + [parts[k]];
        PartsSnoc(old(Value()), parts[..k], parts[k], st, render);
        match parts[k]
        case TextPart(text) =>
          if text != "" {
            out := out + [Single(st, NO_DELTA.(content := Some(text)), None, None)];
          }
        case FunctionCall(name, args) =>
          var toolIndex := nextTool;
          nextTool := AsU32(nextTool + 1);
          sawToolCall := true;
          var t := WholeCall(toolIndex, name, args, render);
          out := out + [Single(st, NO_DELTA.(toolCalls := Some([t])), None, None)];
        case OtherPart =>
      }
      assert parts[..|parts|] == parts;
    }

    /** One payload: its parts first, then its finish reason, judged by everything seen so far. */
    method Translate<J>(f: Frame<J>, st: Stamp, render: J -> string)
        returns (out: seq<Chunk>, failure: Option<Failure>)
      modifies this
      ensures failure == FailureOf(f)
      ensures failure.None? ==> Value() == NextState(old(Value()), f) && out == Emits(old(Value()), f, st, render)
      ensures failure.Some? ==> Value() == old(Value()) && out == []
    {
      out, failure := [], None;
      match f
      case Malformed =>
        failure := Some(ParseError);
      case ErrorFrame(status, code) =>
        var name := "error";
        if status.Some? {
          name := status.value;
        } else if code.Some? {
          name := Decimal(code.value);
        }
        failure := Some(Upstream(name));
      case NoCandidate =>
      case Candidate(parts, finishReason, counts) =>
        if parts.Some? {
          out := TranslateParts(parts.value, st, render);
        }
        if finishReason.Some? {
          var usage := None;
          if counts.Some? {
            usage := Some(UsageOf(counts.value));
          }
          var finish := if sawToolCall then "tool_calls" else MapFinish(finishReason.value);
          out := out + [Single(st, NO_DELTA, Some(finish), usage)];
        }
    }
  }
}
