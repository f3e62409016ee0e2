/** The canonical streaming vocabulary, and what a client gets by folding a stream of chunks. */
module Chunks {
  import opened Prelude

  const U32_RANGE: nat := 0x1_0000_0000

  type U32 = n: nat | n < U32_RANGE

  /** `as u32`, and the wrapping `u32` addition of a release build. */
  function AsU32(n: nat): U32 { n % U32_RANGE }

  /** Values that fit stay, and the rest come round every 2^32. */
  lemma AsU32Wraps(n: nat)
    ensures n < U32_RANGE ==> AsU32(n) == n
    ensures AsU32(n + U32_RANGE) == AsU32(n)
  {
  }

  function MapU32(o: Option<nat>): Option<U32> { if o.Some? then Some(AsU32(o.value)) else None }

  datatype Usage = Usage(prompt: U32, completion: U32, total: U32, cached: Option<U32>, cacheCreation: Option<U32>)

  datatype FunctionChunk = FunctionChunk(name: Option<string>, arguments: Option<string>)

  datatype ToolCallChunk =
    ToolCallChunk(index: U32, id: Option<string>, toolType: Option<string>, fn: Option<FunctionChunk>)

  datatype Delta = Delta(
    role: Option<string>,
    content: Option<string>,
    toolCalls: Option<seq<ToolCallChunk>>,
    refusal: Option<string>,
    reasoning: Option<string>)

  const NO_DELTA := Delta(None, None, None, None, None)

  datatype ChunkChoice =
    ChunkChoice(index: U32, delta: Delta, finish: Option<string>, logprobs: Option<string>)

  datatype Chunk = Chunk(
    id: string,
    created: nat,
    model: string,
    choices: seq<ChunkChoice>,
    usage: Option<Usage>,
    systemFingerprint: Option<string>,
    serviceTier: Option<string>)

  // --- The client's fold -----------------------------------------------------------------------

  datatype Call = Call(id: string, toolType: string, name: string, arguments: string)

  /** What a client has put together for one choice index. */
  datatype Folded = Folded(
    role: Option<string>,
    content: Option<string>,
    calls: map<nat, Call>,
    refusal: Option<string>,
    reasoning: Option<string>,
    finish: Option<string>,
    logprobs: Option<string>)

  const NOTHING := Folded(None, None, map[], None, None, None, None)

  function TextOf(t: Option<string>): string { if t.Some? then t.value else "" }

  /** Text arrives in pieces. */
  function Extend(acc: Option<string>, piece: Option<string>): Option<string> {
    if piece.None? then acc else Some(TextOf(acc) + piece.value)
  }

  /** Everything else arrives whole; a later value replaces an earlier one. */
  function Replace<T>(acc: Option<T>, next: Option<T>): Option<T> {
    if next.None? then acc else next
  }

  function FoldCall(calls: map<nat, Call>, t: ToolCallChunk): map<nat, Call> {
    var was := if t.index in calls then calls[t.index] else Call("", "", "", "");
    var (name, arguments) :=
      if t.fn.Some? then (t.fn.value.name, t.fn.value.arguments) else (None, None);
    calls[t.index := Call(
            if t.id.Some? then t.id.value else was.id,
            if t.toolType.Some? then t.toolType.value else was.toolType,
            if name.Some? then name.value else was.name,
            was.arguments + TextOf(arguments))]
  }

  function FoldCalls(calls: map<nat, Call>, ts: seq<ToolCallChunk>): map<nat, Call>
    decreases |ts|
  {
    if ts == [] then calls else FoldCalls(FoldCall(calls, ts[0]), ts[1..])
  }

  function FoldChoice(acc: Folded, c: ChunkChoice): Folded {
    Folded(
      Replace(acc.role, c.delta.role),
      Extend(acc.content, c.delta.content),
      if c.delta.toolCalls.Some? then FoldCalls(acc.calls, c.delta.toolCalls.value) else acc.calls,
      Extend(acc.refusal, c.delta.refusal),
      Extend(acc.reasoning, c.delta.reasoning),
      Replace(acc.finish, c.finish),
      Replace(acc.logprobs, c.logprobs))
  }

  /** Takes the parts addressed to choice `index`. */
  function FoldChoices(index: U32, acc: Folded, cs: seq<ChunkChoice>): Folded
    decreases |cs|
  {
    if cs == [] then acc else
      FoldChoices(index, if cs[0].index == index then FoldChoice(acc, cs[0]) else acc, cs[1..])
  }

  function FoldChunks(index: U32, acc: Folded, chunks: seq<Chunk>): Folded
    decreases |chunks|
  {
    if chunks == [] then acc else
      FoldChunks(index, FoldChoices(index, acc, chunks[0].choices), chunks[1..])
  }

  function FoldUsage(acc: Option<Usage>, chunks: seq<Chunk>): Option<Usage>
    decreases |chunks|
  {
    if chunks == [] then acc else FoldUsage(Replace(acc, chunks[0].usage), chunks[1..])
  }

  lemma {:induction false} FoldChunksAppend(index: U32, acc: Folded, a: seq<Chunk>, b: seq<Chunk>)
    ensures FoldChunks(index, acc, a + b) == FoldChunks(index, FoldChunks(index, acc, a), b)
    decreases |a|
  {
    if a == [] {
      assert a + b == b;
    } else {
      assert (a + b)[1..] == a[1..] + b;
      FoldChunksAppend(index, FoldChoices(index, acc, a[0].choices), a[1..], b);
    }
  }

  lemma {:induction false} FoldUsageAppend(acc: Option<Usage>, a: seq<Chunk>, b: seq<Chunk>)
    ensures FoldUsage(acc, a + b) == FoldUsage(FoldUsage(acc, a), b)
    decreases |a|
  {
    if a == [] {
      assert a + b == b;
    } else {
      assert (a + b)[1..] == a[1..] + b;
      FoldUsageAppend(Replace(acc, a[0].usage), a[1..], b);
    }
  }

  /** A chunk with one choice folds as that choice. */
  lemma FoldSingle(acc: Folded, c: Chunk)
    requires |c.choices| == 1 && c.choices[0].index == 0
    ensures FoldChunks(0, acc, [c]) == FoldChoice(acc, c.choices[0])
  {
    var chunks := [c];
    assert chunks[1..] == [] && chunks[0] == c;
    assert c.choices[1..] == [];
    assert FoldChoices(0, acc, c.choices) == FoldChoice(acc, c.choices[0]);
  }

  /** The folded calls are exactly `list`, under the dense indices 0, 1, ... */
  ghost predicate Dense(calls: map<nat, Call>, list: seq<Call>) {
    && (forall i: nat :: i in calls <==> i < |list|)
    && forall i: nat :: i < |list| ==> calls[i] == list[i]
  }

  /** A first fragment opens the next index. */
  lemma OpeningExtends(calls: map<nat, Call>, list: seq<Call>, t: ToolCallChunk)
    requires Dense(calls, list) && t.index == |list|
    requires t.id.Some? && t.toolType.Some? && t.fn.Some?
    requires t.fn.value.name.Some? && t.fn.value.arguments.Some?
    ensures Dense(FoldCalls(calls, [t]),
                  list + [Call(t.id.value, t.toolType.value, t.fn.value.name.value,
                               t.fn.value.arguments.value)])
  {
    assert FoldCalls(calls, [t]) == FoldCall(calls, t);
  }

  /** An arguments fragment is appended to the call it names and to nothing else. */
  lemma FragmentExtends(calls: map<nat, Call>, list: seq<Call>, t: ToolCallChunk, piece: string)
    requires Dense(calls, list) && t.index < |list|
    requires t.id.None? && t.toolType.None? && t.fn == Some(FunctionChunk(None, Some(piece)))
    ensures Dense(FoldCalls(calls, [t]),
                  list[t.index := list[t.index].(arguments := list[t.index].arguments + piece)])
  {
    assert FoldCalls(calls, [t]) == FoldCall(calls, t);
  }
}
