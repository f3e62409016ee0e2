/** A client that folds the Anthropic chunk stream gets what the buffered call would have returned. */
module AnthropicFold {
  import opened Prelude
  import opened Chunks
  import opened Anthropic

  // --- One upstream message, in its two renderings ---------------------------------------------

  /** What the model produced. `J` is the type of JSON values. Blocks that are neither text nor client
      tools (server tools, for one) may stream input too. */
  datatype Block<J> =
    | TextBlock(pieces: seq<string>)
    | ToolBlock(id: string, name: string, input: J, fragments: seq<string>)
    | OtherBlock(inputs: seq<string>)

  datatype Message<J> = Message(
    id: string,
    model: string,
    blocks: seq<Block<J>>,
    stopReason: string,
    inputTokens: U32,
    outputTokens: U32,
    cacheRead: Option<U32>,
    cacheCreation: Option<U32>)

  function Concat(pieces: seq<string>): string {
    if pieces == [] then "" else pieces[0] + Concat(pieces[1..])
  }

  function TextDeltas(pieces: seq<string>): seq<Event> {
    if pieces == [] then [] else [TextDelta(Some(pieces[0]))] + TextDeltas(pieces[1..])
  }

  function InputDeltas(fragments: seq<string>): seq<Event> {
    if fragments == [] then [] else [InputJsonDelta(Some(fragments[0]))] + InputDeltas(fragments[1..])
  }

  function BlockEvents<J>(b: Block<J>): seq<Event> {
    match b
    case TextBlock(pieces) => [OtherBlockStart] + TextDeltas(pieces) + [BlockStop]
    case ToolBlock(id, name, _, fragments) =>
      [ToolBlockStart(Some(id), Some(name))] + InputDeltas(fragments) + [BlockStop]
    case OtherBlock(inputs) => [OtherBlockStart] + InputDeltas(inputs) + [BlockStop]
  }

  function BlocksEvents<J>(blocks: seq<Block<J>>): seq<Event> {
    if blocks == [] then [] else BlockEvents(blocks[0]) + BlocksEvents(blocks[1..])
  }

  function Opening<J>(m: Message<J>): Event {
    MessageStart(Some(m.id), Some(m.model), Some(m.inputTokens), MapNat(m.cacheRead), MapNat(m.cacheCreation))
  }

  function MapNat(o: Option<U32>): Option<nat> { if o.Some? then Some(o.value as nat) else None }

  function Closing<J>(m: Message<J>): seq<Event> {
    [MessageDelta(Some(m.stopReason), Some(m.outputTokens)), MessageStop]
  }

  /** The message as a stream: block after block, each opened, filled and closed in turn. */
  function Streamed<J>(m: Message<J>): seq<Event> {
    [Opening(m)] + BlocksEvents(m.blocks) + Closing(m)
  }

  /** A content block of the buffered response, as deserialized. */
  datatype Content<J> =
    | TextContent(text: Option<string>)
    | ToolUse(id: Option<string>, name: Option<string>, input: Option<J>)
    | OtherContent

  function ContentOf<J>(b: Block<J>): Content<J> {
    match b
    case TextBlock(pieces) => TextContent(Some(Concat(pieces)))
    case ToolBlock(id, name, input, _) => ToolUse(Some(id), Some(name), Some(input))
    case OtherBlock(_) => OtherContent
  }

  function Contents<J>(blocks: seq<Block<J>>): seq<Content<J>> {
    if blocks == [] then [] else [ContentOf(blocks[0])] + Contents(blocks[1..])
  }

  datatype Response<J> = Response(
    content: seq<Content<J>>,
    stopReason: string,
    inputTokens: U32,
    outputTokens: U32,
    cacheRead: Option<U32>,
    cacheCreation: Option<U32>)

  /** The same message as a buffered response. */
  function Buffered<J>(m: Message<J>): Response<J> {
    Response(Contents(m.blocks), m.stopReason, m.inputTokens, m.outputTokens, m.cacheRead, m.cacheCreation)
  }

  // --- The buffered path -----------------------------------------------------------------------

  function BufferedText<J>(content: seq<Content<J>>): string {
    if content == [] then "" else TextIn(content[0]) + BufferedText(content[1..])
  }

  function TextIn<J>(c: Content<J>): string { if c.TextContent? then TextOf(c.text) else "" }

  function BufferedCall<J>(c: Content<J>, render: J -> string): Call
    requires c.ToolUse?
  {
    Call(OrElse(c.id, ""), "function", OrElse(c.name, ""), if c.input.Some? then render(c.input.value) else "{}")
  }

  function BufferedCalls<J>(content: seq<Content<J>>, render: J -> string): seq<Call> {
    if content == [] then [] else CallIn(content[0], render) + BufferedCalls(content[1..], render)
  }

  function CallIn<J>(c: Content<J>, render: J -> string): seq<Call> {
    if c.ToolUse? then [BufferedCall(c, render)] else []
  }

  function BufferedFinish(stopReason: string): string {
    if stopReason == "tool_use" then "tool_calls" else MapStopReason(stopReason)
  }

  lemma {:induction false} BufferedTextSnoc<J>(content: seq<Content<J>>, c: Content<J>)
    ensures BufferedText(content + [c]) == BufferedText(content) + TextIn(c)
  {
    var all := content + [c];
    if content == [] {
      assert all[1..] == [] && TextIn(c) + "" == TextIn(c);
    } else {
      assert all[1..] == content[1..] + [c];
      BufferedTextSnoc(content[1..], c);
      assert TextIn(all[0]) + (BufferedText(content[1..]) + TextIn(c))
          == (TextIn(all[0]) + BufferedText(content[1..])) + TextIn(c);
    }
  }

  lemma {:induction false} BufferedCallsSnoc<J>(content: seq<Content<J>>, c: Content<J>, render: J -> string)
    ensures BufferedCalls(content + [c], render) == BufferedCalls(content, render) + CallIn(c, render)
  {
    var all := content + [c];
    if content == [] {
      assert all[1..] == [] && CallIn(c, render) + [] == CallIn(c, render);
    } else {
      assert all[1..] == content[1..] + [c];
      BufferedCallsSnoc(content[1..], c, render);
      assert CallIn(all[0], render) + (BufferedCalls(content[1..], render) + CallIn(c, render))
          == (CallIn(all[0], render) + BufferedCalls(content[1..], render)) + CallIn(c, render);
    }
  }

  /** The buffered fold over content blocks, and the finish reason and usage beside it. */
  method Complete<J>(r: Response<J>, render: J -> string)
      returns (text: string, calls: Option<seq<Call>>, finish: string, usage: Usage)
    ensures text == BufferedText(r.content)
    ensures calls == if BufferedCalls(r.content, render) == [] then None else Some(BufferedCalls(r.content, render))
    ensures finish == BufferedFinish(r.stopReason)
    ensures usage == UsageOf(r.inputTokens, r.cacheRead, r.cacheCreation, r.outputTokens)
  {
    text := "";
    var found: seq<Call> := [];
    for k := 0 to |r.content|
      invariant text == BufferedText(r.content[..k]) && found == BufferedCalls(r.content[..k], render)
    {
      var block := r.content[k];
      assert r.content[..k + 1] == r.content[..k] + [block];
      BufferedTextSnoc(r.content[..k], block);
      BufferedCallsSnoc(r.content[..k], block, render);
      match block
      case TextContent(t) =>
        if t.Some? {
          text := text + t.value;
        }
      case ToolUse(id, name, input) =>
        var arguments := "{}";
        if input.Some? {
          arguments := render(input.value);
        }
        found := found + [Call(OrElse(id, ""), "function", OrElse(name, ""), arguments)];
      case OtherContent =>
    }
    assert r.content[..|r.content|] == r.content;
    calls := if found == [] then None else Some(found);
    finish := if r.stopReason == "tool_use" then "tool_calls" else MapStopReason(r.stopReason);
    var prompt := AsU32(AsU32(r.inputTokens + OrElse(r.cacheRead, 0)) + OrElse(r.cacheCreation, 0));
    usage := Usage(prompt, r.outputTokens, AsU32(prompt + r.outputTokens), r.cacheRead, r.cacheCreation);
  }

  // --- The streamed path, block by block -------------------------------------------------------

  function Tools<J>(blocks: seq<Block<J>>): nat {
    if blocks == [] then 0 else (if blocks[0].ToolBlock? then 1 else 0) + Tools(blocks[1..])
  }

  function StreamedText<J>(blocks: seq<Block<J>>): string {
    if blocks == [] then ""
    else (if blocks[0].TextBlock? then Concat(blocks[0].pieces) else "") + StreamedText(blocks[1..])
  }

  function StreamedCalls<J>(blocks: seq<Block<J>>): (calls: seq<Call>)
    ensures |calls| == Tools(blocks)
  {
    if blocks == [] then []
    else (if blocks[0].ToolBlock?
          then [Call(blocks[0].id, "function", blocks[0].name, Concat(blocks[0].fragments))] else [])
         + StreamedCalls(blocks[1..])
  }

  /** How far a client's fold and the translator's counter have come. */
  datatype Progress = Progress(header: Header, text: string, calls: seq<Call>)

  /** The part of the state that only `message_start` writes. */
  datatype Header =
    Header(id: string, model: string, created: nat, input: U32, cacheRead: Option<U32>, cacheCreation: Option<U32>)

  function HeaderOf(s: State): Header {
    Header(s.id, s.model, s.created, s.inputTokens, s.cacheRead, s.cacheCreation)
  }

  ghost predicate At(s: State, acc: Folded, p: Progress) {
    && HeaderOf(s) == p.header && s.nextTool == AsU32(|p.calls|) && (s.sawToolUse <==> p.calls != [])
    && TextOf(acc.content) == p.text && Dense(acc.calls, p.calls)
    && acc.role == Some("assistant") && acc.refusal.None? && acc.reasoning.None? && acc.logprobs.None?
  }

  /** One emitted chunk, then the rest. */
  lemma FoldStep(s: State, e: Event, events: seq<Event>, acc: Folded, now: nat)
    requires VerdictOf(e).Continue? && |Emits(s, e, now)| == 1
    ensures var rest := Run(NextState(s, e, now), events, now);
            && Run(s, [e] + events, now) == rest.(chunks := Emits(s, e, now) + rest.chunks)
            && FoldChunks(0, acc, Run(s, [e] + events, now).chunks)
            == FoldChunks(0, FoldChoice(acc, Emits(s, e, now)[0].choices[0]), rest.chunks)
  {
    var out, rest := Emits(s, e, now), Run(NextState(s, e, now), events, now);
    assert ([e] + events)[1..] == events;
    assert out == [out[0]];
    FoldSingle(acc, out[0]);
    FoldChunksAppend(0, acc, out, rest.chunks);
  }

  /** An event that emits nothing, then the rest. */
  lemma SilentStep(s: State, e: Event, events: seq<Event>, now: nat)
    requires VerdictOf(e).Continue? && Emits(s, e, now) == []
    ensures Run(s, [e] + events, now) == Run(NextState(s, e, now), events, now)
  {
    assert ([e] + events)[1..] == events;
  }

  lemma {:induction false} TextPiecesFold(s: State, acc: Folded, p: Progress, pieces: seq<string>, now: nat)
    requires At(s, acc, p)
    ensures var r := Run(s, TextDeltas(pieces), now);
            && r.verdict.Continue? && r.state == s
            && At(s, FoldChunks(0, acc, r.chunks), p.(text := p.text + Concat(pieces)))
    decreases |pieces|
  {
    if pieces == [] {
      assert p.text + "" == p.text;
    } else {
      var e := TextDelta(Some(pieces[0]));
      FoldStep(s, e, TextDeltas(pieces[1..]), acc, now);
      var acc' := FoldChoice(acc, Emits(s, e, now)[0].choices[0]);
      TextPiecesFold(s, acc', p.(text := p.text + pieces[0]), pieces[1..], now);
      assert p.text + (pieces[0] + Concat(pieces[1..])) == p.text + pieces[0] + Concat(pieces[1..]);
    }
  }

  function Grown(p: Progress, arguments: string): Progress
    requires p.calls != []
  {
    var last := p.calls[|p.calls| - 1];
    p.(calls := p.calls[|p.calls| - 1 := last.(arguments := last.arguments + arguments)])
  }

  lemma GrowTwice(p: Progress, x: string, y: string)
    requires p.calls != []
    ensures Grown(Grown(p, x), y) == Grown(p, x + y)
  {
    var last := p.calls[|p.calls| - 1];
    assert (last.arguments + x) + y == last.arguments + (x + y);
  }

  lemma {:induction false} FragmentsFold(s: State, acc: Folded, p: Progress, fragments: seq<string>, now: nat)
    requires At(s, acc, p) && 0 < |p.calls| <= U32_RANGE && s.currentTool == Some(|p.calls| - 1)
    ensures var r := Run(s, InputDeltas(fragments), now);
            && r.verdict.Continue? && r.state == s
            && At(s, FoldChunks(0, acc, r.chunks), Grown(p, Concat(fragments)))
    decreases |fragments|
  {
    if fragments == [] {
      var last := p.calls[|p.calls| - 1];
      assert last.arguments + "" == last.arguments;
      assert Grown(p, "").calls == p.calls;
    } else {
      var e := InputJsonDelta(Some(fragments[0]));
      FoldStep(s, e, InputDeltas(fragments[1..]), acc, now);
      var t := ArgumentsFragment(s.currentTool.value, fragments[0]);
      FragmentExtends(acc.calls, p.calls, t, fragments[0]);
      var acc' := FoldChoice(acc, Emits(s, e, now)[0].choices[0]);
      FragmentsFold(s, acc', Grown(p, fragments[0]), fragments[1..], now);
      GrowTwice(p, fragments[0], Concat(fragments[1..]));
    }
  }

  function AfterBlock<J>(p: Progress, b: Block<J>): Progress {
    match b
    case TextBlock(pieces) => p.(text := p.text + Concat(pieces))
    case ToolBlock(id, name, _, fragments) =>
      p.(calls := p.calls + [Call(id, "function", name, Concat(fragments))])
    case OtherBlock(_) => p
  }

  /** Closing a block emits nothing. */
  lemma CloseBlock(s: State, body: seq<Event>, now: nat)
    requires Run(s, body, now).verdict.Continue?
    ensures var r := Run(s, body, now);
            Run(s, body + [BlockStop], now) == r.(state := r.state.(currentTool := None))
  {
    var r := Run(s, body, now);
    RunAppend(s, body, [BlockStop], now);
    SilentStep(r.state, BlockStop, [], now);
    assert [BlockStop] == [BlockStop] + [] && r.chunks + [] == r.chunks;
  }

  lemma TextBlockFolds(s: State, acc: Folded, p: Progress, pieces: seq<string>, now: nat)
    requires At(s, acc, p)
    ensures var r := Run(s, [OtherBlockStart] + TextDeltas(pieces) + [BlockStop], now);
            && r.verdict.Continue?
            && At(r.state, FoldChunks(0, acc, r.chunks), p.(text := p.text + Concat(pieces)))
  {
    var s', body := s.(currentTool := None), TextDeltas(pieces);
    assert [OtherBlockStart] + body + [BlockStop] == [OtherBlockStart] + (body + [BlockStop]);
    SilentStep(s, OtherBlockStart, body + [BlockStop], now);
    TextPiecesFold(s', acc, p, pieces, now);
    CloseBlock(s', body, now);
  }

  function Opened(s: State): State {
    s.(nextTool := AsU32(s.nextTool + 1), currentTool := Some(s.nextTool), sawToolUse := true)
  }

  /** The first fragment opens a call with no arguments yet. */
  lemma OpeningFolds(s: State, acc: Folded, p: Progress, id: string, name: string, rest: seq<Event>, now: nat)
      returns (acc': Folded)
    requires At(s, acc, p) && |p.calls| < U32_RANGE
    ensures var s', p' := Opened(s), p.(calls := p.calls + [Call(id, "function", name, "")]);
            && At(s', acc', p') && s'.currentTool == Some(|p.calls|)
    ensures var all := Run(s, [ToolBlockStart(Some(id), Some(name))] + rest, now);
            var r := Run(Opened(s), rest, now);
            && all.verdict == r.verdict && all.state == r.state
            && FoldChunks(0, acc, all.chunks) == FoldChunks(0, acc', r.chunks)
  {
    var e := ToolBlockStart(Some(id), Some(name));
    OpeningExtends(acc.calls, p.calls, FirstFragment(s.nextTool, Some(id), Some(name)));
    FoldStep(s, e, rest, acc, now);
    acc' := FoldChoice(acc, Emits(s, e, now)[0].choices[0]);
  }

  lemma ToolBodyFolds(s: State, acc: Folded, p: Progress, call: Call, fragments: seq<string>, now: nat)
    requires call.arguments == "" && |p.calls| < U32_RANGE && s.currentTool == Some(|p.calls|)
    requires At(s, acc, p.(calls := p.calls + [call]))
    ensures var r := Run(s, InputDeltas(fragments) + [BlockStop], now);
            && r.verdict.Continue?
            && At(r.state, FoldChunks(0, acc, r.chunks),
                  p.(calls := p.calls + [call.(arguments := Concat(fragments))]))
  {
    FragmentsFold(s, acc, p.(calls := p.calls + [call]), fragments, now);
    CloseBlock(s, InputDeltas(fragments), now);
    GrownFromNothing(p, call, Concat(fragments));
  }

  lemma ToolBlockFolds(s: State, acc: Folded, p: Progress, id: string, name: string, fragments: seq<string>, now: nat)
    requires At(s, acc, p) && |p.calls| < U32_RANGE
    ensures var r := Run(s, [ToolBlockStart(Some(id), Some(name))] + InputDeltas(fragments) + [BlockStop], now);
            && r.verdict.Continue?
            && At(r.state, FoldChunks(0, acc, r.chunks),
                  p.(calls := p.calls + [Call(id, "function", name, Concat(fragments))]))
  {
    var e, rest := ToolBlockStart(Some(id), Some(name)), InputDeltas(fragments) + [BlockStop];
    assert [e] + InputDeltas(fragments) + [BlockStop] == [e] + rest;
    var acc' := OpeningFolds(s, acc, p, id, name, rest, now);
    ToolBodyFolds(Opened(s), acc', p, Call(id, "function", name, ""), fragments, now);
  }

  lemma GrownFromNothing(p: Progress, call: Call, arguments: string)
    requires call.arguments == ""
    ensures Grown(p.(calls := p.calls + [call]), arguments)
         == p.(calls := p.calls + [call.(arguments := arguments)])
  {
    assert "" + arguments == arguments;
    assert (p.calls + [call])[|p.calls| := call.(arguments := arguments)]
        == p.calls + [call.(arguments := arguments)];
  }

  /** Input that belongs to no tool call goes nowhere. */
  lemma {:induction false} StrayInputIsSilent(s: State, inputs: seq<string>, now: nat)
    requires s.currentTool.None?
    ensures Run(s, InputDeltas(inputs), now) == Outcome([], Continue, s)
  {
    if inputs != [] {
      StrayInputIsSilent(s, inputs[1..], now);
      SilentStep(s, InputJsonDelta(Some(inputs[0])), InputDeltas(inputs[1..]), now);
    }
  }

  lemma OtherBlockFolds(s: State, acc: Folded, p: Progress, inputs: seq<string>, now: nat)
    requires At(s, acc, p)
    ensures var r := Run(s, [OtherBlockStart] + InputDeltas(inputs) + [BlockStop], now);
            && r.verdict.Continue? && r.chunks == [] && At(r.state, acc, p)
  {
    var s', body := s.(currentTool := None), InputDeltas(inputs);
    assert [OtherBlockStart] + body + [BlockStop] == [OtherBlockStart] + (body + [BlockStop]);
    SilentStep(s, OtherBlockStart, body + [BlockStop], now);
    StrayInputIsSilent(s', inputs, now);
    CloseBlock(s', body, now);
  }

  lemma BlockFolds<J>(s: State, acc: Folded, p: Progress, b: Block<J>, now: nat)
    requires At(s, acc, p) && |p.calls| + Tools([b]) <= U32_RANGE
    ensures var r := Run(s, BlockEvents(b), now);
            && r.verdict.Continue?
            && At(r.state, FoldChunks(0, acc, r.chunks), AfterBlock(p, b))
  {
    match b
    case TextBlock(pieces) => TextBlockFolds(s, acc, p, pieces, now);
    case ToolBlock(id, name, _, fragments) => ToolBlockFolds(s, acc, p, id, name, fragments, now);
    case OtherBlock(inputs) => OtherBlockFolds(s, acc, p, inputs, now);
  }

  function AfterBlocks<J>(p: Progress, blocks: seq<Block<J>>): Progress {
    Progress(p.header, p.text + StreamedText(blocks), p.calls + StreamedCalls(blocks))
  }

  lemma AfterBlocksStep<J>(p: Progress, blocks: seq<Block<J>>)
    requires blocks != []
    ensures AfterBlocks(AfterBlock(p, blocks[0]), blocks[1..]) == AfterBlocks(p, blocks)
  {
    var b, later := blocks[0], blocks[1..];
    var mine := if b.TextBlock? then Concat(b.pieces) else "";
    assert AfterBlock(p, b).text == p.text + mine;
    assert (p.text + mine) + StreamedText(later) == p.text + (mine + StreamedText(later));
    var found := if b.ToolBlock? then [Call(b.id, "function", b.name, Concat(b.fragments))] else [];
    assert AfterBlock(p, b).calls == p.calls + found;
    assert (p.calls + found) + StreamedCalls(later) == p.calls + (found + StreamedCalls(later));
  }

  lemma {:induction false} BlocksFold<J>(s: State, acc: Folded, p: Progress, blocks: seq<Block<J>>, now: nat)
    requires At(s, acc, p) && |p.calls| + Tools(blocks) <= U32_RANGE
    ensures var r := Run(s, BlocksEvents(blocks), now);
            && r.verdict.Continue?
            && At(r.state, FoldChunks(0, acc, r.chunks), AfterBlocks(p, blocks))
    decreases |blocks|
  {
    if blocks == [] {
      assert p.text + "" == p.text && p.calls + [] == p.calls;
    } else {
      assert Tools([blocks[0]]) == (if blocks[0].ToolBlock? then 1 else 0) by {
        assert [blocks[0]][1..] == [];
      }
      BlockFolds(s, acc, p, blocks[0], now);
      var first, later := BlockEvents(blocks[0]), BlocksEvents(blocks[1..]);
      var r := Run(s, first, now);
      RunAppend(s, first, later, now);
      FoldChunksAppend(0, acc, r.chunks, Run(r.state, later, now).chunks);
      BlocksFold(r.state, FoldChunks(0, acc, r.chunks), AfterBlock(p, blocks[0]), blocks[1..], now);
      AfterBlocksStep(p, blocks);
    }
  }

  // --- The whole message -----------------------------------------------------------------------

  lemma {:induction false} StreamedTextIsBuffered<J>(blocks: seq<Block<J>>)
    ensures StreamedText(blocks) == BufferedText(Contents(blocks))
  {
    if blocks != [] {
      StreamedTextIsBuffered(blocks[1..]);
      assert Contents(blocks)[1..] == Contents(blocks[1..]);
    }
  }

  /** Every tool block's fragments, put together, are its input as JSON. */
  ghost predicate FragmentsSpellInput<J(!new)>(blocks: seq<Block<J>>, parse: string -> Option<J>) {
    forall i :: 0 <= i < |blocks| && blocks[i].ToolBlock? ==> Spells(blocks[i], parse)
  }

  /** The upstream's protocol: a tool block's fragments spell its input, or it sends nothing at all, as
      upstreams do for an input without members. */
  ghost predicate UpstreamSpells<J(!new)>(blocks: seq<Block<J>>, parse: string -> Option<J>) {
    forall i :: 0 <= i < |blocks| && blocks[i].ToolBlock? ==>
      Spells(blocks[i], parse) || Concat(blocks[i].fragments) == ""
  }

  /** No tool block goes out without a character of input. */
  ghost predicate EveryToolSendsInput<J(!new)>(blocks: seq<Block<J>>) {
    forall i :: 0 <= i < |blocks| && blocks[i].ToolBlock? ==> Concat(blocks[i].fragments) != ""
  }

  predicate Spells<J(==)>(b: Block<J>, parse: string -> Option<J>)
    requires b.ToolBlock?
  {
    parse(Concat(b.fragments)) == Some(b.input)
  }

  /** The same calls but for the text of their arguments. */
  ghost predicate SameButArguments(a: seq<Call>, b: seq<Call>) {
    |a| == |b| && forall i :: 0 <= i < |a| ==> a[i].(arguments := "") == b[i].(arguments := "")
  }

  /** The arguments are call by call the same JSON value. */
  ghost predicate SameArguments<J(!new)>(a: seq<Call>, b: seq<Call>, parse: string -> Option<J>)
    requires |a| == |b|
  {
    forall i :: 0 <= i < |a| ==> parse(a[i].arguments) == parse(b[i].arguments)
  }

  lemma SameArgumentsCons<J(!new)>(x: Call, a: seq<Call>, y: Call, b: seq<Call>, parse: string -> Option<J>)
    requires |a| == |b|
    ensures SameArguments([x] + a, [y] + b, parse)
       <==> parse(x.arguments) == parse(y.arguments) && SameArguments(a, b, parse)
  {
    var xs, ys := [x] + a, [y] + b;
    if SameArguments(xs, ys, parse) {
      assert xs[0] == x && ys[0] == y;
      assert forall i :: 0 <= i < |a| ==> xs[i + 1] == a[i] && ys[i + 1] == b[i];
    }
  }

  lemma FragmentsSpellInputCons<J(!new)>(blocks: seq<Block<J>>, parse: string -> Option<J>)
    requires blocks != []
    ensures FragmentsSpellInput(blocks, parse)
       <==> (blocks[0].ToolBlock? ==> Spells(blocks[0], parse)) && FragmentsSpellInput(blocks[1..], parse)
  {
    assert forall i :: 0 <= i < |blocks[1..]| ==> blocks[1..][i] == blocks[i + 1];
  }

  lemma {:induction false} SameCallsButArguments<J(!new)>(
    blocks: seq<Block<J>>, render: J -> string, parse: string -> Option<J>)
    requires forall v: J :: parse(render(v)) == Some(v)
    ensures var s, b := StreamedCalls(blocks), BufferedCalls(Contents(blocks), render);
            && SameButArguments(s, b)
            && (SameArguments(s, b, parse) <==> FragmentsSpellInput(blocks, parse))
  {
    if blocks != [] {
      var block, later := blocks[0], blocks[1..];
      SameCallsButArguments(later, render, parse);
      FragmentsSpellInputCons(blocks, parse);
      assert Contents(blocks)[1..] == Contents(later);
      if block.ToolBlock? {
        var x := Call(block.id, "function", block.name, Concat(block.fragments));
        var y := BufferedCall(ContentOf(block), render);
        SameArgumentsCons(x, StreamedCalls(later), y, BufferedCalls(Contents(later), render), parse);
      } else {
        assert StreamedCalls(blocks) == StreamedCalls(later);
        assert BufferedCalls(Contents(blocks), render) == BufferedCalls(Contents(later), render);
      }
    }
  }

  /** Call by call the same id, type and name; and the same arguments as JSON values exactly when every
      tool block sent something, the empty text being no JSON. */
  lemma StreamedCallsAreBuffered<J(!new)>(blocks: seq<Block<J>>, render: J -> string, parse: string -> Option<J>)
    requires parse("").None? && forall v: J :: parse(render(v)) == Some(v)
    requires UpstreamSpells(blocks, parse)
    ensures var s, b := StreamedCalls(blocks), BufferedCalls(Contents(blocks), render);
            && SameButArguments(s, b)
            && (SameArguments(s, b, parse) <==> EveryToolSendsInput(blocks))
  {
    SameCallsButArguments(blocks, render, parse);
    assert FragmentsSpellInput(blocks, parse) <==> EveryToolSendsInput(blocks);
  }

  lemma OpeningStarts<J>(m: Message<J>, now: nat)
    ensures var p := Progress(Header(m.id, m.model, now, m.inputTokens, m.cacheRead, m.cacheCreation), "", []);
            At(NextState(FRESH, Opening(m), now), FoldChoice(NOTHING, Emits(FRESH, Opening(m), now)[0].choices[0]), p)
  {
  }

  lemma ClosingFolds<J>(s: State, acc: Folded, m: Message<J>, now: nat)
    requires s.inputTokens == m.inputTokens && s.cacheRead == m.cacheRead && s.cacheCreation == m.cacheCreation
    ensures var r := Run(s, Closing(m), now);
            && r.verdict == Done
            && FoldChunks(0, acc, r.chunks) == acc.(finish := Some(FinishFor(m.stopReason, s.sawToolUse)))
            && forall u :: FoldUsage(u, r.chunks)
                        == Some(UsageOf(m.inputTokens, m.cacheRead, m.cacheCreation, m.outputTokens))
  {
    var e := MessageDelta(Some(m.stopReason), Some(m.outputTokens));
    assert Closing(m) == [e] + [MessageStop];
    FoldStep(s, e, [MessageStop], acc, now);
    var out := Emits(s, e, now);
    assert out + [] == out && out[1..] == [];
  }

  /** What a client holds after the stream of a message, whatever noise is mixed in. */
  lemma StreamFolds<J>(m: Message<J>, events: seq<Event>, now: nat)
    requires WithoutNoise(events) == Streamed(m) && Tools(m.blocks) <= U32_RANGE
    ensures var r := Run(FRESH, events, now);
            var folded := FoldChunks(0, NOTHING, r.chunks);
            && r.verdict == Done
            && folded.role == Some("assistant") && folded.refusal.None? && folded.reasoning.None?
            && TextOf(folded.content) == StreamedText(m.blocks)
            && Dense(folded.calls, StreamedCalls(m.blocks))
            && folded.finish == Some(FinishFor(m.stopReason, Tools(m.blocks) > 0))
            && FoldUsage(None, r.chunks)
            == Some(UsageOf(m.inputTokens, m.cacheRead, m.cacheCreation, m.outputTokens))
  {
    NoiseIsInvisible(FRESH, events, now);
    var e, body, closing := Opening(m), BlocksEvents(m.blocks), Closing(m);
    assert Streamed(m) == [e] + (body + closing);
    FoldStep(FRESH, e, body + closing, NOTHING, now);
    OpeningStarts(m, now);
    var s, acc := NextState(FRESH, e, now), FoldChoice(NOTHING, Emits(FRESH, e, now)[0].choices[0]);
    var p := Progress(Header(m.id, m.model, now, m.inputTokens, m.cacheRead, m.cacheCreation), "", []);
    BodyAndClosingFold(s, acc, p, m, now);
    FoldUsageAppend(None, Emits(FRESH, e, now), Run(s, body + closing, now).chunks);
  }

  lemma BodyAndClosingFold<J>(s: State, acc: Folded, p: Progress, m: Message<J>, now: nat)
    requires At(s, acc, p) && p.text == "" && p.calls == [] && Tools(m.blocks) <= U32_RANGE
    requires p.header == Header(m.id, m.model, now, m.inputTokens, m.cacheRead, m.cacheCreation)
    ensures var r := Run(s, BlocksEvents(m.blocks) + Closing(m), now);
            var folded := FoldChunks(0, acc, r.chunks);
            && r.verdict == Done
            && folded.role == Some("assistant") && folded.refusal.None? && folded.reasoning.None?
            && TextOf(folded.content) == StreamedText(m.blocks)
            && Dense(folded.calls, StreamedCalls(m.blocks))
            && folded.finish == Some(FinishFor(m.stopReason, Tools(m.blocks) > 0))
            && forall u :: FoldUsage(u, r.chunks)
                        == Some(UsageOf(m.inputTokens, m.cacheRead, m.cacheCreation, m.outputTokens))
  {
    var body, closing := BlocksEvents(m.blocks), Closing(m);
    BlocksFold(s, acc, p, m.blocks, now);
    var r := Run(s, body, now);
    RunAppend(s, body, closing, now);
    ClosingFolds(r.state, FoldChunks(0, acc, r.chunks), m, now);
    var last := Run(r.state, closing, now).chunks;
    FoldChunksAppend(0, acc, r.chunks, last);
    forall u ensures FoldUsage(u, r.chunks + last)
                  == Some(UsageOf(m.inputTokens, m.cacheRead, m.cacheCreation, m.outputTokens))
    {
      FoldUsageAppend(u, r.chunks, last);
    }
    assert "" + StreamedText(m.blocks) == StreamedText(m.blocks);
    assert [] + StreamedCalls(m.blocks) == StreamedCalls(m.blocks);
  }

  /** Streamed equals buffered: text, calls and usage. The arguments are the same JSON values exactly
      when every tool block sent some; the finish reasons agree exactly when no tool block appeared or
      the stop reason already means a tool call. */
  lemma StreamedEqualsBuffered<J(!new)>(
    m: Message<J>, events: seq<Event>, now: nat, render: J -> string, parse: string -> Option<J>)
      returns (streamed: seq<Call>)
    requires WithoutNoise(events) == Streamed(m) && Tools(m.blocks) <= U32_RANGE
    requires parse("").None? && forall v: J :: parse(render(v)) == Some(v)
    requires UpstreamSpells(m.blocks, parse)
    ensures var chunks, b := Run(FRESH, events, now).chunks, Buffered(m);
            var folded, calls := FoldChunks(0, NOTHING, chunks), BufferedCalls(b.content, render);
            && TextOf(folded.content) == BufferedText(b.content)
            && Dense(folded.calls, streamed) && SameButArguments(streamed, calls)
            && (SameArguments(streamed, calls, parse) <==> EveryToolSendsInput(m.blocks))
            && FoldUsage(None, chunks) == Some(UsageOf(b.inputTokens, b.cacheRead, b.cacheCreation, b.outputTokens))
            && (folded.finish == Some(BufferedFinish(b.stopReason)) <==>
                (calls == [] || m.stopReason == "tool_use" || m.stopReason == "tool_calls"))
  {
    hide Run, WithoutNoise, Streamed, FoldChunks, Dense, UpstreamSpells, EveryToolSendsInput, SameArguments,
        SameButArguments;
    streamed := StreamedCalls(m.blocks);
    StreamFolds(m, events, now);
    StreamedTextIsBuffered(m.blocks);
    StreamedCallsAreBuffered(m.blocks, render, parse);
  }

  /** What a stop reason means, case by case. */
  ghost predicate Says(reason: string, called: bool, finish: string) {
    && (called ==> finish == "tool_calls")
    && (!called ==>
          && (reason == "end_turn" || reason == "stop_sequence" ==> finish == "stop")
          && (reason == "max_tokens" ==> finish == "length")
          && (reason == "tool_use" ==> finish == "tool_calls")
          && (reason !in {"end_turn", "stop_sequence", "max_tokens", "tool_use"} ==> finish == reason))
  }

  /** Both paths say it, the stream with an eye on its tool blocks, the buffered response without. */
  lemma StopReasons<J(!new)>(m: Message<J>, events: seq<Event>, now: nat)
    requires WithoutNoise(events) == Streamed(m) && Tools(m.blocks) <= U32_RANGE
    ensures var finish := FoldChunks(0, NOTHING, Run(FRESH, events, now).chunks).finish;
            finish.Some? && Says(m.stopReason, Tools(m.blocks) > 0, finish.value)
    ensures Says(m.stopReason, false, BufferedFinish(Buffered(m).stopReason))
  {
    hide Run, FoldChunks, WithoutNoise, Streamed, Tools;
    StreamFolds(m, events, now);
  }

  // --- Where the two part ----------------------------------------------------------------------

  /** A tool called with no input: an upstream that sends no fragment streams the empty text, where the
      buffered response spells the input out. */
  lemma NoFragmentsNoArguments<J>(id: string, name: string, input: J, render: J -> string)
    ensures var blocks := [ToolBlock(id, name, input, [])];
            && StreamedCalls(blocks) == [Call(id, "function", name, "")]
            && BufferedCalls(Contents(blocks), render) == [Call(id, "function", name, render(input))]
  {
    var blocks := [ToolBlock(id, name, input, [])];
    assert blocks[1..] == [] && Contents(blocks)[1..] == [];
    assert Contents(blocks) == [ToolUse(Some(id), Some(name), Some(input))];
    assert StreamedCalls<J>([]) == [] && BufferedCalls<J>([], render) == [];
  }

  /** A tool block that leaves out its id or name still opens a call, with empty ones. */
  lemma NamelessToolIsACall(s: State, id: Option<string>, name: Option<string>, now: nat)
    ensures var folded := FoldChunks(0, NOTHING, Run(s, [ToolBlockStart(id, name)], now).chunks);
            folded.calls == map[s.nextTool as nat := Call(if id.Some? then id.value else "", "function",
                                                         if name.Some? then name.value else "", "")]
  {
    var e := ToolBlockStart(id, name);
    assert [e][1..] == [] && Emits(s, e, now) + [] == Emits(s, e, now);
    FoldSingle(NOTHING, Emits(s, e, now)[0]);
    assert "" + "" == "";
    var ts := [FirstFragment(s.nextTool, id, name)];
    assert ts[1..] == [] && FoldCalls(map[], ts) == FoldCall(map[], ts[0]);
  }

  /** A tool call cut short by the token limit: the stream ends in "tool_calls", the buffered response
      in "length". */
  lemma TruncatedToolCallFinishes<J>(m: Message<J>, b: Block<J>, now: nat)
    requires b.ToolBlock? && m.blocks == [b] && m.stopReason == "max_tokens"
    ensures FoldChunks(0, NOTHING, Run(FRESH, Streamed(m), now).chunks).finish == Some("tool_calls")
    ensures BufferedFinish(Buffered(m).stopReason) == "length"
  {
    assert m.blocks[1..] == [] && Tools<J>([]) == 0;
    StreamIsNotNoise(m);
    StreamFolds(m, Streamed(m), now);
  }

  lemma {:induction false} NoiseFree(events: seq<Event>)
    requires forall i :: 0 <= i < |events| ==> !IsNoise(events[i])
    ensures WithoutNoise(events) == events
  {
    if events != [] {
      NoiseFree(events[1..]);
    }
  }

  lemma {:induction false} TextDeltasAreNotNoise(pieces: seq<string>)
    ensures forall i :: 0 <= i < |TextDeltas(pieces)| ==> !IsNoise(TextDeltas(pieces)[i])
  {
    if pieces != [] {
      TextDeltasAreNotNoise(pieces[1..]);
    }
  }

  lemma {:induction false} InputDeltasAreNotNoise(fragments: seq<string>)
    ensures forall i :: 0 <= i < |InputDeltas(fragments)| ==> !IsNoise(InputDeltas(fragments)[i])
  {
    if fragments != [] {
      InputDeltasAreNotNoise(fragments[1..]);
    }
  }

  lemma {:induction false} BlocksAreNotNoise<J>(blocks: seq<Block<J>>)
    ensures forall i :: 0 <= i < |BlocksEvents(blocks)| ==> !IsNoise(BlocksEvents(blocks)[i])
  {
    if blocks != [] {
      match blocks[0] {
        case TextBlock(pieces) => TextDeltasAreNotNoise(pieces);
        case ToolBlock(_, _, _, fragments) => InputDeltasAreNotNoise(fragments);
        case OtherBlock(inputs) => InputDeltasAreNotNoise(inputs);
      }
      BlocksAreNotNoise(blocks[1..]);
    }
  }

  lemma StreamIsNotNoise<J>(m: Message<J>)
    ensures WithoutNoise(Streamed(m)) == Streamed(m)
  {
    BlocksAreNotNoise(m.blocks);
    NoiseFree(Streamed(m));
  }
}
