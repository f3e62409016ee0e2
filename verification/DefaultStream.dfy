/** Providers without native streaming: a buffered response told as two chunks, and read back. */
module DefaultStream {
  import opened Prelude
  import opened Chunks

  /** A choice of a buffered response, its message content already taken as text. */
  datatype Choice = Choice(
    index: U32,
    content: string,
    toolCalls: Option<seq<Call>>,
    refusal: Option<string>,
    reasoning: Option<string>,
    finish: string,
    logprobs: Option<string>)

  datatype Response = Response(
    id: string,
    created: nat,
    model: string,
    choices: seq<Choice>,
    usage: Usage,
    systemFingerprint: Option<string>,
    serviceTier: Option<string>)

  // --- The two chunks --------------------------------------------------------------------------

  function WholeCall(index: nat, c: Call): ToolCallChunk {
    ToolCallChunk(AsU32(index), Some(c.id), Some(c.toolType), Some(FunctionChunk(Some(c.name), Some(c.arguments))))
  }

  function WholeCalls(calls: seq<Call>, first: nat): (ts: seq<ToolCallChunk>)
    ensures |ts| == |calls|
    decreases |calls|
  {
    if calls == [] then [] else [WholeCall(first, calls[0])] + WholeCalls(calls[1..], first + 1)
  }

  function ToolCallsToChunks(calls: seq<Call>): Option<seq<ToolCallChunk>> {
    if calls == [] then None else Some(WholeCalls(calls, 0))
  }

  function CallsOf(c: Choice): seq<Call> { if c.toolCalls.Some? then c.toolCalls.value else [] }

  function OpeningChoice(c: Choice): ChunkChoice {
    ChunkChoice(
      c.index,
      Delta(Some("assistant"),
            if c.content == "" && CallsOf(c) != [] then None else Some(c.content),
            ToolCallsToChunks(CallsOf(c)), c.refusal, c.reasoning),
      None, c.logprobs)
  }

  function ClosingChoice(c: Choice): ChunkChoice {
    ChunkChoice(c.index, NO_DELTA, Some(if c.finish == "" then "stop" else c.finish), None)
  }

  function OpeningChoices(cs: seq<Choice>): (out: seq<ChunkChoice>)
    ensures |out| == |cs| && forall k :: 0 <= k < |cs| ==> out[k] == OpeningChoice(cs[k])
  {
    if cs == [] then [] else [OpeningChoice(cs[0])] + OpeningChoices(cs[1..])
  }

  function ClosingChoices(cs: seq<Choice>): (out: seq<ChunkChoice>)
    ensures |out| == |cs| && forall k :: 0 <= k < |cs| ==> out[k] == ClosingChoice(cs[k])
  {
    if cs == [] then [] else [ClosingChoice(cs[0])] + ClosingChoices(cs[1..])
  }

  const EMPTY_OPENING := ChunkChoice(0, Delta(Some("assistant"), Some(""), None, None, None), None, None)
  const EMPTY_CLOSING := ChunkChoice(0, NO_DELTA, Some("stop"), None)

  function AsStream(r: Response): seq<Chunk> {
    var opening := if r.choices == [] then [EMPTY_OPENING] else OpeningChoices(r.choices);
    var closing := if r.choices == [] then [EMPTY_CLOSING] else ClosingChoices(r.choices);
    [Chunk(r.id, r.created, r.model, opening, None, r.systemFingerprint, r.serviceTier),
     Chunk(r.id, r.created, r.model, closing, Some(r.usage), r.systemFingerprint, r.serviceTier)]
  }

  // --- Reading it back -------------------------------------------------------------------------

  lemma {:induction false} NoPartForIndex(index: U32, acc: Folded, cs: seq<ChunkChoice>)
    requires forall k :: 0 <= k < |cs| ==> cs[k].index != index
    ensures FoldChoices(index, acc, cs) == acc
    decreases |cs|
  {
    if cs != [] {
      NoPartForIndex(index, acc, cs[1..]);
    }
  }

  lemma {:induction false} OnePartForIndex(index: U32, acc: Folded, cs: seq<ChunkChoice>, at: nat)
    requires at < |cs| && forall k :: 0 <= k < |cs| ==> (cs[k].index == index <==> k == at)
    ensures FoldChoices(index, acc, cs) == FoldChoice(acc, cs[at])
    decreases |cs|
  {
    if at == 0 {
      NoPartForIndex(index, FoldChoice(acc, cs[0]), cs[1..]);
    } else {
      OnePartForIndex(index, acc, cs[1..], at - 1);
    }
  }

  lemma {:induction false} WholeCallsFold(calls: map<nat, Call>, before: seq<Call>, more: seq<Call>)
    requires Dense(calls, before) && |before| + |more| <= U32_RANGE
    ensures Dense(FoldCalls(calls, WholeCalls(more, |before|)), before + more)
    decreases |more|
  {
    if more == [] {
      assert before + more == before;
    } else {
      var t, later := WholeCall(|before|, more[0]), WholeCalls(more[1..], |before| + 1);
      OpeningExtends(calls, before, t);
      assert ([t] + later)[1..] == later && FoldCalls(calls, [t]) == FoldCall(calls, t);
      WholeCallsFold(FoldCall(calls, t), before + [more[0]], more[1..]);
      assert before + [more[0]] + more[1..] == before + more;
    }
  }

  ghost predicate DistinctIndices(cs: seq<Choice>) {
    forall i, j :: 0 <= i < j < |cs| ==> cs[i].index != cs[j].index
  }

  lemma FoldTwo(index: U32, a: Chunk, b: Chunk)
    ensures FoldChunks(index, NOTHING, [a, b])
         == FoldChoices(index, FoldChoices(index, NOTHING, a.choices), b.choices)
    ensures FoldUsage(None, [a, b]) == Replace(Replace(None, a.usage), b.usage)
  {
    var two, last := [a, b], [b];
    assert two[0] == a && two[1..] == last && last[0] == b && last[1..] == [];
    var half := FoldChoices(index, NOTHING, a.choices);
    assert FoldChunks(index, half, last) == FoldChoices(index, half, b.choices);
    var usage := Replace(None, a.usage);
    assert FoldUsage(usage, last) == Replace(usage, b.usage);
  }

  /** Nothing is lost: the fold for a choice's index recovers the choice. An empty finish reason reads
      as "stop", and an empty list of tool calls as none. */
  lemma RoundTrip(r: Response, at: nat)
    requires DistinctIndices(r.choices) && at < |r.choices| && |CallsOf(r.choices[at])| <= U32_RANGE
    ensures var c := r.choices[at];
            var f := FoldChunks(c.index, NOTHING, AsStream(r));
            && f.role == Some("assistant")
            && TextOf(f.content) == c.content
            && (f.content.None? <==> c.content == "" && CallsOf(c) != [])
            && Dense(f.calls, CallsOf(c))
            && f.refusal == c.refusal && f.reasoning == c.reasoning && f.logprobs == c.logprobs
            && f.finish == Some(if c.finish == "" then "stop" else c.finish)
    ensures FoldUsage(None, AsStream(r)) == Some(r.usage)
  {
    var c, s := r.choices[at], AsStream(r);
    FoldTwo(c.index, s[0], s[1]);
    OnePartForIndex(c.index, NOTHING, s[0].choices, at);
    var half := FoldChoice(NOTHING, OpeningChoice(c));
    OnePartForIndex(c.index, half, s[1].choices, at);
    WholeCallsFold(map[], [], CallsOf(c));
    assert [] + CallsOf(c) == CallsOf(c);
    NothingIsExtended(c);
  }

  lemma NothingIsExtended(c: Choice)
    ensures Extend(None, Some(c.content)) == Some(c.content)
    ensures Extend(None, c.refusal) == c.refusal && Extend(None, c.reasoning) == c.reasoning
  {
    assert "" + c.content == c.content;
    if c.refusal.Some? {
      assert "" + c.refusal.value == c.refusal.value;
    }
    if c.reasoning.Some? {
      assert "" + c.reasoning.value == c.reasoning.value;
    }
  }

  /** Every chunk is the response's: its id, creation time, model, fingerprint and tier. Only the last one
      carries usage, and only its choices finish; a list of tool calls is only sent where there is one. */
  lemma ChunksCarryResponse(r: Response)
    ensures var s := AsStream(r);
            && |s| == 2
            && (forall k :: 0 <= k < 2 ==>
              && s[k].id == r.id && s[k].created == r.created && s[k].model == r.model
              && s[k].systemFingerprint == r.systemFingerprint && s[k].serviceTier == r.serviceTier
              && |s[k].choices| == (if r.choices == [] then 1 else |r.choices|)
              && (forall i :: 0 <= i < |s[k].choices| ==>
                && s[k].choices[i].index == (if r.choices == [] then 0 else r.choices[i].index)
                && (s[k].choices[i].finish.Some? <==> k == 1)))
            && s[0].usage.None? && s[1].usage == Some(r.usage)
            && (forall i :: 0 <= i < |s[1].choices| ==> s[1].choices[i].delta == NO_DELTA)
            && (forall i :: 0 <= i < |r.choices| ==>
                  (s[0].choices[i].delta.toolCalls.Some? <==> CallsOf(r.choices[i]) != []))
  {
  }

  /** A response with no choices is told as one empty, finished choice; no other index appears. */
  lemma NoChoices(r: Response, index: U32)
    requires r.choices == []
    ensures FoldChunks(index, NOTHING, AsStream(r))
         == if index == 0
            then NOTHING.(role := Some("assistant"), content := Some(""), finish := Some("stop"))
            else NOTHING
  {
    var s := AsStream(r);
    FoldTwo(index, s[0], s[1]);
    if index == 0 {
      assert "" + "" == "";
      OnePartForIndex(0, NOTHING, s[0].choices, 0);
      OnePartForIndex(0, FoldChoice(NOTHING, EMPTY_OPENING), s[1].choices, 0);
    } else {
      NoPartForIndex(index, NOTHING, s[0].choices);
      NoPartForIndex(index, NOTHING, s[1].choices);
    }
  }

  /** The stream invents no choice. */
  lemma NoOtherIndex(r: Response, index: U32)
    requires r.choices != [] && forall k :: 0 <= k < |r.choices| ==> r.choices[k].index != index
    ensures FoldChunks(index, NOTHING, AsStream(r)) == NOTHING
  {
    var s := AsStream(r);
    FoldTwo(index, s[0], s[1]);
    NoPartForIndex(index, NOTHING, s[0].choices);
    NoPartForIndex(index, NOTHING, s[1].choices);
  }
}
