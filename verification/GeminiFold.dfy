/** Folding the Gemini chunk stream against the buffered response built from the same parts. */
module GeminiFold {
  import opened Prelude
  import opened Chunks
  import opened Gemini

  // --- The buffered path -----------------------------------------------------------------------

  datatype Completed = Completed(index: U32, text: string, calls: Option<seq<Call>>, finish: string)

  datatype Whole<J> = Whole(parts: seq<Part<J>>, finishReason: string)

  function TextIn<J>(p: Part<J>): string { if p.TextPart? then p.text else "" }

  function BufferedText<J>(parts: seq<Part<J>>): string {
    if parts == [] then "" else TextIn(parts[0]) + BufferedText(parts[1..])
  }

  function CallIn<J>(p: Part<J>, ordinal: nat, render: J -> string): Call
    requires p.FunctionCall?
  {
    Call("call_" + Decimal(ordinal), "function", OrElse(p.name, ""), Arguments(p.args, render))
  }

  /** The buffered path numbers a call by the position of its part. */
  function BufferedCalls<J>(parts: seq<Part<J>>, render: J -> string): seq<Call> {
    if parts == [] then [] else
      var n := |parts| - 1;
      BufferedCalls(parts[..n], render) + if parts[n].FunctionCall? then [CallIn(parts[n], n, render)] else []
  }

  lemma {:induction false} BufferedTextSnoc<J>(parts: seq<Part<J>>, p: Part<J>)
    ensures BufferedText(parts + [p]) == BufferedText(parts) + TextIn(p)
  {
    var all := parts + [p];
    if parts == [] {
      assert all[1..] == [] && TextIn(p) + "" == TextIn(p);
    } else {
      assert all[1..] == parts[1..] + [p];
      BufferedTextSnoc(parts[1..], p);
      assert TextIn(all[0]) + (BufferedText(parts[1..]) + TextIn(p))
          == (TextIn(all[0]) + BufferedText(parts[1..])) + TextIn(p);
    }
  }

  lemma BufferedCallsSnoc<J>(parts: seq<Part<J>>, p: Part<J>, render: J -> string)
    ensures BufferedCalls(parts + [p], render)
         == BufferedCalls(parts, render) + if p.FunctionCall? then [CallIn(p, |parts|, render)] else []
  {
    assert (parts + [p])[..|parts|] == parts;
  }

  ghost predicate Completes<J>(c: Completed, index: nat, w: Whole<J>, render: J -> string) {
    var calls := BufferedCalls(w.parts, render);
    && c.index == AsU32(index)
    && c.text == BufferedText(w.parts)
    && c.calls == (if calls == [] then None else Some(calls))
    && c.finish == FinishFor(w.finishReason, calls != [])
  }

  method CompleteOne<J>(index: nat, w: Whole<J>, render: J -> string) returns (c: Completed)
    ensures Completes(c, index, w, render)
  {
    var text := "";
    var calls: seq<Call> := [];
    for i := 0 to |w.parts|
      invariant text == BufferedText(w.parts[..i]) && calls == BufferedCalls(w.parts[..i], render)
    {
      var p := w.parts[i];
      assert w.parts[..i + 1] == w.parts[..i] + [p];
      BufferedTextSnoc(w.parts[..i], p);
      BufferedCallsSnoc(w.parts[..i], p, render);
      assert p.TextPart? || text + "" == text;
      match p
      case TextPart(t) => text := text + t;
      case FunctionCall(name, args) =>
        calls := calls + [Call("call_" + Decimal(i), "function", OrElse(name, ""), Arguments(args, render))];
      case OtherPart =>
    }
    assert w.parts[..|w.parts|] == w.parts;
    c := Completed(AsU32(index), text, if calls == [] then None else Some(calls),
                   if calls != [] then "tool_calls" else MapFinish(w.finishReason));
  }

  /** Every candidate becomes a choice, in order; no candidate at all is an error. */
  method Complete<J>(candidates: seq<Whole<J>>, render: J -> string) returns (choices: Option<seq<Completed>>)
    ensures choices.None? <==> candidates == []
    ensures choices.Some? ==>
              && |choices.value| == |candidates|
              && forall k :: 0 <= k < |candidates| ==> Completes(choices.value[k], k, candidates[k], render)
  {
    if candidates == [] {
      return None;
    }
    var out: seq<Completed> := [];
    for k := 0 to |candidates|
      invariant |out| == k && forall j :: 0 <= j < k ==> Completes(out[j], j, candidates[j], render)
    {
      var c := CompleteOne(k, candidates[k], render);
      out := out + [c];
    }
    choices := Some(out);
  }

  // --- The streamed path -----------------------------------------------------------------------

  /** The streamed path numbers a call by its ordinal among the calls, `first` for the first one. */
  function StreamedCalls<J>(parts: seq<Part<J>>, first: nat, render: J -> string): seq<Call>
    decreases |parts|
  {
    if parts == [] then []
    else if parts[0].FunctionCall?
    then [CallIn(parts[0], first, render)] + StreamedCalls(parts[1..], first + 1, render)
    else StreamedCalls(parts[1..], first, render)
  }

  function CallCount<J>(parts: seq<Part<J>>): nat {
    if parts == [] then 0 else (if parts[0].FunctionCall? then 1 else 0) + CallCount(parts[1..])
  }

  lemma {:induction false} CallCountAppend<J>(a: seq<Part<J>>, b: seq<Part<J>>)
    ensures CallCount(a + b) == CallCount(a) + CallCount(b)
  {
    if a == [] {
      assert a + b == b;
    } else {
      assert (a + b)[1..] == a[1..] + b;
      CallCountAppend(a[1..], b);
    }
  }

  lemma {:induction false} StreamedCallsAppend<J>(a: seq<Part<J>>, b: seq<Part<J>>, first: nat, render: J -> string)
    ensures StreamedCalls(a + b, first, render)
         == StreamedCalls(a, first, render) + StreamedCalls(b, first + CallCount(a), render)
    decreases |a|
  {
    if a == [] {
      assert a + b == b;
    } else {
      assert (a + b)[0] == a[0] && (a + b)[1..] == a[1..] + b;
      StreamedCallsAppend(a[1..], b, if a[0].FunctionCall? then first + 1 else first, render);
    }
  }

  lemma {:induction false} StreamedCallsCount<J>(parts: seq<Part<J>>, first: nat, render: J -> string)
    ensures |StreamedCalls(parts, first, render)| == CallCount(parts)
    decreases |parts|
  {
    if parts != [] {
      StreamedCallsCount(parts[1..], if parts[0].FunctionCall? then first + 1 else first, render);
    }
  }

  lemma {:induction false} BufferedTextAppend<J>(a: seq<Part<J>>, b: seq<Part<J>>)
    ensures BufferedText(a + b) == BufferedText(a) + BufferedText(b)
  {
    if a == [] {
      assert a + b == b && "" + BufferedText(b) == BufferedText(b);
    } else {
      assert (a + b)[0] == a[0] && (a + b)[1..] == a[1..] + b;
      BufferedTextAppend(a[1..], b);
      assert TextIn(a[0]) + (BufferedText(a[1..]) + BufferedText(b))
          == (TextIn(a[0]) + BufferedText(a[1..])) + BufferedText(b);
    }
  }

  datatype Progress = Progress(text: string, calls: seq<Call>)

  ghost predicate At(s: State, acc: Folded, p: Progress) {
    && s.nextTool == AsU32(|p.calls|) && (s.sawToolCall <==> p.calls != [])
    && TextOf(acc.content) == p.text && Dense(acc.calls, p.calls)
  }

  function Advanced<J>(p: Progress, parts: seq<Part<J>>, render: J -> string): Progress {
    Progress(p.text + BufferedText(parts), p.calls + StreamedCalls(parts, |p.calls|, render))
  }

  lemma PartFolds<J>(s: State, acc: Folded, p: Progress, part: Part<J>, st: Stamp, render: J -> string)
      returns (acc': Folded, p': Progress)
    requires At(s, acc, p) && (part.FunctionCall? ==> |p.calls| < U32_RANGE)
    ensures acc' == FoldChunks(0, acc, PartEmits(s, part, st, render))
    ensures p' == Progress(p.text + TextIn(part),
                           p.calls + if part.FunctionCall? then [CallIn(part, |p.calls|, render)] else [])
    ensures At(AfterPart(s, part), acc', p') && acc'.finish == acc.finish
  {
    var out := PartEmits(s, part, st, render);
    acc' := FoldChunks(0, acc, out);
    p' := Progress(p.text + TextIn(part),
                   p.calls + if part.FunctionCall? then [CallIn(part, |p.calls|, render)] else []);
    match part
    case TextPart(text) =>
      if text == "" {
        assert p.text + "" == p.text;
      } else {
        FoldSingle(acc, out[0]);
      }
    case FunctionCall(name, args) =>
      OpeningExtends(acc.calls, p.calls, WholeCall(s.nextTool, name, args, render));
      FoldSingle(acc, out[0]);
      assert p.text + "" == p.text;
    case OtherPart =>
      assert p.text + "" == p.text;
  }

  lemma {:induction false} PartsFold<J>(
    s: State, acc: Folded, p: Progress, parts: seq<Part<J>>, st: Stamp, render: J -> string)
    requires At(s, acc, p) && |p.calls| + CallCount(parts) <= U32_RANGE
    ensures var acc' := FoldChunks(0, acc, PartsEmit(s, parts, st, render));
            && At(AfterParts(s, parts), acc', Advanced(p, parts, render))
            && acc'.finish == acc.finish
    decreases |parts|
  {
    if parts == [] {
      assert p.text + "" == p.text;
    } else {
      var acc', p' := PartFolds(s, acc, p, parts[0], st, render);
      var s', rest := AfterPart(s, parts[0]), parts[1..];
      PartsFold(s', acc', p', rest, st, render);
      FoldChunksAppend(0, acc, PartEmits(s, parts[0], st, render), PartsEmit(s', rest, st, render));
      AdvancedStep(p, p', parts, render);
    }
  }

  lemma AdvancedStep<J>(p: Progress, p': Progress, parts: seq<Part<J>>, render: J -> string)
    requires parts != []
    requires p'.text == p.text + TextIn(parts[0])
    requires p'.calls == p.calls + if parts[0].FunctionCall? then [CallIn(parts[0], |p.calls|, render)] else []
    ensures Advanced(p', parts[1..], render) == Advanced(p, parts, render)
  {
    var later := parts[1..];
    assert (p.text + TextIn(parts[0])) + BufferedText(later) == p.text + (TextIn(parts[0]) + BufferedText(later));
    var mine := if parts[0].FunctionCall? then [CallIn(parts[0], |p.calls|, render)] else [];
    var calls := StreamedCalls(later, |p'.calls|, render);
    assert (p.calls + mine) + calls == p.calls + (mine + calls);
    assert StreamedCalls(parts, |p.calls|, render) == mine + calls;
  }

  // --- A stream of frames ----------------------------------------------------------------------

  function AfterFrames<J>(s: State, frames: seq<Frame<J>>): State
    decreases |frames|
  {
    if frames == [] then s else AfterFrames(NextState(s, frames[0]), frames[1..])
  }

  /** What frames yield, up to the first one that is an error. */
  function Run<J>(s: State, frames: seq<Frame<J>>, st: Stamp, render: J -> string): seq<Chunk>
    decreases |frames|
  {
    if frames == [] || FailureOf(frames[0]).Some? then []
    else Emits(s, frames[0], st, render) + Run(NextState(s, frames[0]), frames[1..], st, render)
  }

  /** All parts, with the boundaries between frames forgotten. */
  function AllParts<J>(frames: seq<Frame<J>>): seq<Part<J>> {
    if frames == [] then [] else PartsOf(frames[0]) + AllParts(frames[1..])
  }

  ghost predicate NoFailure<J(!new)>(frames: seq<Frame<J>>) {
    forall i :: 0 <= i < |frames| ==> FailureOf(frames[i]).None?
  }

  function FinishOr<J>(f: Frame<J>, sawToolCall: bool, before: Option<string>): Option<string> {
    if f.Candidate? && f.finishReason.Some? then Some(FinishFor(f.finishReason.value, sawToolCall)) else before
  }

  /** The finish reason a client ends up with: each frame that carries one replaces it, and judges it
      by the calls seen up to that frame. */
  function FinishAfter<J>(frames: seq<Frame<J>>, callsBefore: nat, before: Option<string>): Option<string>
    decreases |frames|
  {
    if frames == [] then before else
      var calls := callsBefore + CallCount(PartsOf(frames[0]));
      FinishAfter(frames[1..], calls, FinishOr(frames[0], calls > 0, before))
  }

  lemma FrameFolds<J>(s: State, acc: Folded, p: Progress, f: Frame<J>, st: Stamp, render: J -> string)
    requires At(s, acc, p) && |p.calls| + CallCount(PartsOf(f)) <= U32_RANGE
    ensures var acc' := FoldChunks(0, acc, Emits(s, f, st, render));
            && At(NextState(s, f), acc', Advanced(p, PartsOf(f), render))
            && acc'.finish == FinishOr(f, NextState(s, f).sawToolCall, acc.finish)
  {
    PartsFold(s, acc, p, PartsOf(f), st, render);
    var parts, last := PartsEmit(s, PartsOf(f), st, render), FinishEmits(NextState(s, f), f, st);
    FoldChunksAppend(0, acc, parts, last);
    if last != [] {
      FoldSingle(FoldChunks(0, acc, parts), last[0]);
    }
  }

  lemma AdvancedTwice<J>(p: Progress, a: seq<Part<J>>, b: seq<Part<J>>, render: J -> string)
    ensures Advanced(Advanced(p, a, render), b, render) == Advanced(p, a + b, render)
  {
    BufferedTextAppend(a, b);
    assert (p.text + BufferedText(a)) + BufferedText(b) == p.text + (BufferedText(a) + BufferedText(b));
    StreamedCallsAppend(a, b, |p.calls|, render);
    StreamedCallsCount(a, |p.calls|, render);
    var mine, later := StreamedCalls(a, |p.calls|, render), StreamedCalls(b, |p.calls| + CallCount(a), render);
    assert (p.calls + mine) + later == p.calls + (mine + later);
  }

  /** Folding the first frame leaves the same thing to be done with the later ones. */
  lemma FirstFrameFolds<J(!new)>(
    s: State, acc: Folded, p: Progress, frames: seq<Frame<J>>, st: Stamp, render: J -> string)
      returns (acc': Folded, p': Progress)
    requires frames != [] && NoFailure(frames)
    requires At(s, acc, p) && |p.calls| + CallCount(AllParts(frames)) <= U32_RANGE
    ensures At(NextState(s, frames[0]), acc', p')
    ensures |p'.calls| == |p.calls| + CallCount(PartsOf(frames[0]))
    ensures |p'.calls| + CallCount(AllParts(frames[1..])) <= U32_RANGE
    ensures acc'.finish == FinishOr(frames[0], |p'.calls| > 0, acc.finish)
    ensures Advanced(p', AllParts(frames[1..]), render) == Advanced(p, AllParts(frames), render)
    ensures FoldChunks(0, acc, Run(s, frames, st, render))
         == FoldChunks(0, acc', Run(NextState(s, frames[0]), frames[1..], st, render))
  {
    var f, later := frames[0], frames[1..];
    CallCountAppend(PartsOf(f), AllParts(later));
    FrameFolds(s, acc, p, f, st, render);
    acc', p' := FoldChunks(0, acc, Emits(s, f, st, render)), Advanced(p, PartsOf(f), render);
    StreamedCallsCount(PartsOf(f), |p.calls|, render);
    FoldChunksAppend(0, acc, Emits(s, f, st, render), Run(NextState(s, f), later, st, render));
    AdvancedTwice(p, PartsOf(f), AllParts(later), render);
  }

  /** However the parts are spread over frames, the client folds their text and calls together. */
  lemma {:induction false} FramesFold<J(!new)>(
    s: State, acc: Folded, p: Progress, frames: seq<Frame<J>>, st: Stamp, render: J -> string)
    requires NoFailure(frames)
    requires At(s, acc, p) && |p.calls| + CallCount(AllParts(frames)) <= U32_RANGE
    ensures var acc' := FoldChunks(0, acc, Run(s, frames, st, render));
            && At(AfterFrames(s, frames), acc', Advanced(p, AllParts(frames), render))
            && acc'.finish == FinishAfter(frames, |p.calls|, acc.finish)
    decreases |frames|
  {
    if frames == [] {
      assert p.text + "" == p.text && p.calls + [] == p.calls;
    } else {
      var acc', p' := FirstFrameFolds(s, acc, p, frames, st, render);
      FramesFold(NextState(s, frames[0]), acc', p', frames[1..], st, render);
    }
  }

  /** Every chunk of a stream carries the id, model and creation time it was stamped with, and choice 0. */
  lemma {:induction false} ChunksCarryStamp<J(!new)>(s: State, frames: seq<Frame<J>>, st: Stamp, render: J -> string)
    requires NoFailure(frames)
    ensures forall c :: c in Run(s, frames, st, render) ==>
      && c.id == st.id && c.model == st.model && c.created == st.created
      && |c.choices| == 1 && c.choices[0].index == 0
    decreases |frames|
  {
    if frames != [] {
      PartsCarryStamp(s, PartsOf(frames[0]), st, render);
      ChunksCarryStamp(NextState(s, frames[0]), frames[1..], st, render);
    }
  }

  lemma {:induction false} PartsCarryStamp<J(!new)>(s: State, parts: seq<Part<J>>, st: Stamp, render: J -> string)
    ensures forall c :: c in PartsEmit(s, parts, st, render) ==>
      && c.id == st.id && c.model == st.model && c.created == st.created
      && |c.choices| == 1 && c.choices[0].index == 0
    decreases |parts|
  {
    if parts != [] {
      PartsCarryStamp(AfterPart(s, parts[0]), parts[1..], st, render);
    }
  }

  // --- The last finish reason ------------------------------------------------------------------

  predicate Finishes<J>(f: Frame<J>) { f.Candidate? && f.finishReason.Some? }

  lemma {:induction false} AllPartsAppend<J>(a: seq<Frame<J>>, b: seq<Frame<J>>)
    ensures AllParts(a + b) == AllParts(a) + AllParts(b)
  {
    if a == [] {
      assert a + b == b;
    } else {
      assert (a + b)[0] == a[0] && (a + b)[1..] == a[1..] + b;
      AllPartsAppend(a[1..], b);
    }
  }

  lemma {:induction false} LaterFramesKeepFinish<J(!new)>(post: seq<Frame<J>>, calls: nat, before: Option<string>)
    requires forall i :: 0 <= i < |post| ==> !Finishes(post[i])
    ensures FinishAfter(post, calls, before) == before
    decreases |post|
  {
    if post != [] {
      LaterFramesKeepFinish(post[1..], calls + CallCount(PartsOf(post[0])), before);
    }
  }

  lemma {:induction false} LastFinishDecides<J(!new)>(
    pre: seq<Frame<J>>, f: Frame<J>, post: seq<Frame<J>>, calls: nat, before: Option<string>)
    requires Finishes(f) && forall i :: 0 <= i < |post| ==> !Finishes(post[i])
    ensures FinishAfter(pre + [f] + post, calls, before)
         == Some(FinishFor(f.finishReason.value, calls + CallCount(AllParts(pre + [f])) > 0))
    decreases |pre|
  {
    var all, upTo := pre + [f] + post, pre + [f];
    if pre == [] {
      assert all[0] == f && all[1..] == post && upTo[1..] == [];
      assert AllParts<J>([]) == [] && AllParts(upTo) == PartsOf(f) + AllParts(upTo[1..]);
      assert PartsOf(f) + [] == PartsOf(f);
      LaterFramesKeepFinish(post, calls + CallCount(PartsOf(f)),
                            FinishOr(f, calls + CallCount(PartsOf(f)) > 0, before));
    } else {
      assert all[0] == pre[0] && all[1..] == pre[1..] + [f] + post;
      assert upTo[0] == pre[0] && upTo[1..] == pre[1..] + [f];
      var more := calls + CallCount(PartsOf(pre[0]));
      CallCountAppend(PartsOf(pre[0]), AllParts(upTo[1..]));
      LastFinishDecides(pre[1..], f, post, more, FinishOr(pre[0], more > 0, before));
    }
  }

  // --- Identifiers -----------------------------------------------------------------------------

  /** Positions of the calls among the parts. */
  function Positions<J>(parts: seq<Part<J>>): seq<nat> {
    if parts == [] then [] else
      var n := |parts| - 1;
      Positions(parts[..n]) + if parts[n].FunctionCall? then [n] else []
  }

  /** Those are exactly the positions of calls, in ascending order. */
  lemma {:induction false} PositionsAreTheCalls<J>(parts: seq<Part<J>>)
    ensures forall i :: 0 <= i < |parts| ==> (parts[i].FunctionCall? <==> i in Positions(parts))
    ensures forall n :: n in Positions(parts) ==> n < |parts|
    ensures forall i, j :: 0 <= i < j < |Positions(parts)| ==> Positions(parts)[i] < Positions(parts)[j]
  {
    if parts != [] {
      var init, last := parts[..|parts| - 1], |parts| - 1;
      PositionsAreTheCalls(init);
      assert forall i :: 0 <= i < last ==> parts[i] == init[i];
      var before := Positions(init);
      assert forall n: nat :: n in Positions(parts) <==> n in before || (n == last && parts[last].FunctionCall?);
      assert forall i :: 0 <= i < |before| ==> before[i] in before;
    }
  }

  /** The call says what the part says: its name, and its arguments as the serializer renders them, the
      empty object standing for none. */
  ghost predicate Carries<J>(c: Call, p: Part<J>, render: J -> string) {
    && p.FunctionCall? && c.toolType == "function"
    && (p.name.Some? ==> c.name == p.name.value) && (p.name.None? ==> c.name == "")
    && (p.args.Some? ==> c.arguments == render(p.args.value)) && (p.args.None? ==> c.arguments == "{}")
  }

  lemma CallInCarries<J>(p: Part<J>, ordinal: nat, render: J -> string)
    requires p.FunctionCall?
    ensures Carries(CallIn(p, ordinal, render), p, render)
  {
  }

  /** Both paths list the same calls, each under its own numbering. */
  lemma {:induction false} SameCallsTwoNumberings<J>(parts: seq<Part<J>>, render: J -> string)
    ensures var at, s, b := Positions(parts), StreamedCalls(parts, 0, render), BufferedCalls(parts, render);
            && |s| == |b| == |at| == CallCount(parts)
            && forall i :: 0 <= i < |at| ==>
              && at[i] < |parts| && parts[at[i]].FunctionCall?
              && s[i] == CallIn(parts[at[i]], i, render) && b[i] == CallIn(parts[at[i]], at[i], render)
  {
    if parts != [] {
      var n := |parts| - 1;
      var init, p := parts[..n], parts[n];
      assert parts == init + [p] && [p][1..] == [];
      SameCallsTwoNumberings(init, render);
      StreamedCallsAppend(init, [p], 0, render);
      CallCountAppend(init, [p]);
      assert StreamedCalls([p], CallCount(init), render)
          == if p.FunctionCall? then [CallIn(p, CallCount(init), render)] else [];
    }
  }

  lemma {:induction false} DecimalIsInjective(a: nat, b: nat)
    requires Decimal(a) == Decimal(b)
    ensures a == b
  {
    var x, y := Decimal(a), Decimal(b);
    assert x[|x| - 1] == ('0' as int + a % 10) as char && y[|y| - 1] == ('0' as int + b % 10) as char;
    assert a % 10 == b % 10;
    DecimalLength(a);
    DecimalLength(b);
    if a >= 10 && b >= 10 {
      assert Decimal(a / 10) == x[..|x| - 1] && Decimal(b / 10) == y[..|y| - 1];
      DecimalIsInjective(a / 10, b / 10);
    }
  }

  /** The number a string of digits stands for. */
  function Value(s: string): int {
    if s == "" then 0 else 10 * Value(s[..|s| - 1]) + (s[|s| - 1] as int - '0' as int)
  }

  /** Decimal notation means the number, in digits only and without a leading zero. */
  lemma {:induction false} DecimalReadsBack(n: nat)
    ensures Value(Decimal(n)) == n && (forall i :: 0 <= i < |Decimal(n)| ==> '0' <= Decimal(n)[i] <= '9')
    ensures |Decimal(n)| >= 1 && (Decimal(n)[0] == '0' ==> n == 0)
  {
    var s, last := Decimal(n), ('0' as int + n % 10) as char;
    if n < 10 {
      assert s[..0] == "";
    } else {
      DecimalReadsBack(n / 10);
      assert s == Decimal(n / 10) + [last] && s[..|s| - 1] == Decimal(n / 10);
    }
  }

  lemma DecimalLength(n: nat)
    ensures |Decimal(n)| >= 1 && (|Decimal(n)| == 1 <==> n < 10)
  {
  }

  // --- The whole response ----------------------------------------------------------------------

  /** What a client holds after all frames. */
  lemma FoldedFrames<J(!new)>(
    pre: seq<Frame<J>>, f: Frame<J>, post: seq<Frame<J>>, st: Stamp, render: J -> string)
    requires NoFailure(pre + [f] + post)
    requires Finishes(f) && forall i :: 0 <= i < |post| ==> !Finishes(post[i])
    requires CallCount(AllParts(pre + [f] + post)) <= U32_RANGE
    ensures var parts := AllParts(pre + [f] + post);
            var folded := FoldChunks(0, NOTHING, Run(FRESH, pre + [f] + post, st, render));
            && TextOf(folded.content) == BufferedText(parts)
            && Dense(folded.calls, StreamedCalls(parts, 0, render))
            && folded.finish == Some(FinishFor(f.finishReason.value, CallCount(AllParts(pre + [f])) > 0))
  {
    hide Run, AllParts, CallCount, StreamedCalls, BufferedText, FinishAfter, FinishFor, FailureOf;
    var frames := pre + [f] + post;
    var parts := AllParts(frames);
    FramesFold(FRESH, NOTHING, Progress("", []), frames, st, render);
    assert "" + BufferedText(parts) == BufferedText(parts);
    assert [] + StreamedCalls(parts, 0, render) == StreamedCalls(parts, 0, render);
    LastFinishDecides(pre, f, post, 0, None);
  }

  /** However one candidate's parts are cut into frames, the folded stream is the buffered choice: the
      same text, the same calls up to their ids, and the same id exactly for a call whose position
      among the parts is its ordinal among the calls. The finish reasons agree exactly when there is
      no call, or one came no later than the last finish reason, or the reason reads the same anyway. */
  lemma StreamedEqualsBuffered<J(!new)>(
    pre: seq<Frame<J>>, f: Frame<J>, post: seq<Frame<J>>, st: Stamp, render: J -> string)
    requires NoFailure(pre + [f] + post)
    requires Finishes(f) && forall i :: 0 <= i < |post| ==> !Finishes(post[i])
    requires CallCount(AllParts(pre + [f] + post)) <= U32_RANGE
    ensures var frames, reason := pre + [f] + post, f.finishReason.value;
            var parts := AllParts(frames);
            var folded, calls := FoldChunks(0, NOTHING, Run(FRESH, frames, st, render)), BufferedCalls(parts, render);
            && TextOf(folded.content) == BufferedText(parts)
            && (forall i: nat :: i in folded.calls <==> i < |calls|)
            && |Positions(parts)| == |calls|
            && (forall i: nat :: i < |calls| ==>
              && folded.calls[i].(id := "") == calls[i].(id := "")
              && (folded.calls[i].id == calls[i].id <==> Positions(parts)[i] == i)
              && Positions(parts)[i] < |parts| && Carries(calls[i], parts[Positions(parts)[i]], render))
            && (folded.finish == Some(FinishFor(reason, calls != [])) <==>
                (calls == [] || CallCount(AllParts(pre + [f])) > 0 || MapFinish(reason) == "tool_calls"))
  {
    hide Run, AllParts, CallCount, StreamedCalls, BufferedText, BufferedCalls, Positions, Decimal, FailureOf, Carries;
    var parts := AllParts(pre + [f] + post);
    FoldedFrames(pre, f, post, st, render);
    SameCallsTwoNumberings(parts, render);
    AllPartsAppend(pre + [f], post);
    CallCountAppend(AllParts(pre + [f]), AllParts(post));
    forall i: nat | i < |BufferedCalls(parts, render)|
      ensures StreamedCalls(parts, 0, render)[i].id == BufferedCalls(parts, render)[i].id <==> Positions(parts)[i] == i
      ensures Carries(BufferedCalls(parts, render)[i], parts[Positions(parts)[i]], render)
    {
      IdsAgreeAt(i, Positions(parts)[i]);
      CallInCarries(parts[Positions(parts)[i]], Positions(parts)[i], render);
    }
  }

  /** So every call's arguments, streamed and buffered, parse back to what the model asked for: the args of
      the i-th call part, or the empty object where it has none. */
  lemma ArgumentsReachTheClient<J(!new)>(
    pre: seq<Frame<J>>, f: Frame<J>, post: seq<Frame<J>>, st: Stamp, render: J -> string,
    parse: string -> Option<J>)
    requires NoFailure(pre + [f] + post)
    requires Finishes(f) && forall i :: 0 <= i < |post| ==> !Finishes(post[i])
    requires CallCount(AllParts(pre + [f] + post)) <= U32_RANGE
    requires forall v: J :: parse(render(v)) == Some(v)
    ensures var frames := pre + [f] + post;
            var parts := AllParts(frames);
            var at, calls := Positions(parts), BufferedCalls(parts, render);
            var folded := FoldChunks(0, NOTHING, Run(FRESH, frames, st, render));
            |at| == |calls| && forall i: nat :: i < |at| ==>
              && at[i] < |parts| && parts[at[i]].FunctionCall? && i in folded.calls
              && folded.calls[i].arguments == calls[i].arguments
              && (parts[at[i]].args.Some? ==> parse(folded.calls[i].arguments) == parts[at[i]].args)
              && (parts[at[i]].args.None? ==> folded.calls[i].arguments == "{}")
  {
    hide Run, AllParts, CallCount, StreamedCalls, BufferedText, BufferedCalls, Positions, Decimal, FailureOf,
      FoldChunks, NoFailure, FinishFor;
    StreamedEqualsBuffered(pre, f, post, st, render);
  }

  /** What a finish reason means, case by case. */
  ghost predicate Says(reason: string, called: bool, finish: string) {
    && (called ==> finish == "tool_calls")
    && (!called ==>
          && (reason == "STOP" ==> finish == "stop")
          && (reason == "MAX_TOKENS" ==> finish == "length")
          && (reason == "SAFETY" || reason == "RECITATION" ==> finish == "content_filter")
          && (reason !in {"STOP", "MAX_TOKENS", "SAFETY", "RECITATION"} ==> finish == reason))
  }

  /** Both paths say it: the stream of the calls so far, the buffered choice of all of them. */
  lemma FinishReasons<J(!new)>(
    pre: seq<Frame<J>>, f: Frame<J>, post: seq<Frame<J>>, st: Stamp, render: J -> string, c: Completed, index: nat)
    requires NoFailure(pre + [f] + post)
    requires Finishes(f) && forall i :: 0 <= i < |post| ==> !Finishes(post[i])
    requires CallCount(AllParts(pre + [f] + post)) <= U32_RANGE
    requires Completes(c, index, Whole(AllParts(pre + [f] + post), f.finishReason.value), render)
    ensures var finish := FoldChunks(0, NOTHING, Run(FRESH, pre + [f] + post, st, render)).finish;
            finish.Some? && Says(f.finishReason.value, CallCount(AllParts(pre + [f])) > 0, finish.value)
    ensures Says(f.finishReason.value, c.calls.Some?, c.finish)
  {
    hide Run, AllParts, CallCount, StreamedCalls, BufferedText, BufferedCalls, FailureOf, FoldChunks, NoFailure;
    FoldedFrames(pre, f, post, st, render);
  }

  lemma IdsAgreeAt(i: nat, at: nat)
    ensures "call_" + Decimal(i) == "call_" + Decimal(at) <==> i == at
  {
    var x, y := "call_" + Decimal(i), "call_" + Decimal(at);
    assert x[5..] == Decimal(i) && y[5..] == Decimal(at);
    if x == y {
      DecimalIsInjective(i, at);
    }
  }

  // --- Usage -----------------------------------------------------------------------------------

  /** The buffered usage block deserializes into `u32` fields, the three plain counts being required. */
  predicate Deserializes(c: TokenCounts) {
    && c.prompt.Some? && c.prompt.value < U32_RANGE && c.candidates.Some? && c.candidates.value < U32_RANGE
    && c.total.Some? && c.total.value < U32_RANGE
    && (c.thoughts.Some? ==> c.thoughts.value < U32_RANGE) && (c.cached.Some? ==> c.cached.value < U32_RANGE)
  }

  function BufferedUsage(c: TokenCounts): Usage
    requires Deserializes(c)
  {
    Usage(c.prompt.value, AsU32(c.candidates.value + OrElse(c.thoughts, 0)), c.total.value,
          if c.cached.Some? then Some(c.cached.value as U32) else None, None)
  }

  lemma {:induction false} PartsCarryNoUsage<J>(
    u: Option<Usage>, s: State, parts: seq<Part<J>>, st: Stamp, render: J -> string)
    ensures FoldUsage(u, PartsEmit(s, parts, st, render)) == u
    decreases |parts|
  {
    if parts != [] {
      var mine, later := PartEmits(s, parts[0], st, render), PartsEmit(AfterPart(s, parts[0]), parts[1..], st, render);
      FoldUsageAppend(u, mine, later);
      assert mine == [] || mine[1..] == [];
      PartsCarryNoUsage(u, AfterPart(s, parts[0]), parts[1..], st, render);
    }
  }

  function UsageIn<J>(f: Frame<J>): Option<Usage> {
    if Finishes(f) && f.counts.Some? then Some(UsageOf(f.counts.value)) else None
  }

  lemma FrameUsage<J>(u: Option<Usage>, s: State, f: Frame<J>, st: Stamp, render: J -> string)
    ensures FoldUsage(u, Emits(s, f, st, render)) == Replace(u, UsageIn(f))
  {
    var parts, last := PartsEmit(s, PartsOf(f), st, render), FinishEmits(NextState(s, f), f, st);
    FoldUsageAppend(u, parts, last);
    PartsCarryNoUsage(u, s, PartsOf(f), st, render);
    assert last == [] || last[1..] == [];
  }

  lemma {:induction false} LastUsageDecides<J(!new)>(
    u: Option<Usage>, s: State, pre: seq<Frame<J>>, f: Frame<J>, post: seq<Frame<J>>, st: Stamp, render: J -> string)
    requires NoFailure(pre + [f] + post)
    requires UsageIn(f).Some? && forall i :: 0 <= i < |post| ==> !Finishes(post[i])
    ensures FoldUsage(u, Run(s, pre + [f] + post, st, render)) == UsageIn(f)
    decreases |pre|
  {
    hide Emits, NextState, UsageIn, FoldUsage;
    var all := pre + [f] + post;
    FoldUsageAppend(u, Emits(s, all[0], st, render), Run(NextState(s, all[0]), all[1..], st, render));
    FrameUsage(u, s, all[0], st, render);
    assert NoFailure(all[1..]) by {
      assert forall i :: 0 <= i < |all[1..]| ==> all[1..][i] == all[i + 1];
    }
    if pre == [] {
      assert all[0] == f && all[1..] == post;
      NoLaterUsage(UsageIn(f), NextState(s, f), post, st, render);
    } else {
      assert all[0] == pre[0] && all[1..] == pre[1..] + [f] + post;
      LastUsageDecides(Replace(u, UsageIn(pre[0])), NextState(s, pre[0]), pre[1..], f, post, st, render);
    }
  }

  lemma {:induction false} NoLaterUsage<J(!new)>(
    u: Option<Usage>, s: State, post: seq<Frame<J>>, st: Stamp, render: J -> string)
    requires NoFailure(post) && forall i :: 0 <= i < |post| ==> !Finishes(post[i])
    ensures FoldUsage(u, Run(s, post, st, render)) == u
    decreases |post|
  {
    if post != [] {
      var later := post[1..];
      FoldUsageAppend(u, Emits(s, post[0], st, render), Run(NextState(s, post[0]), later, st, render));
      FrameUsage(u, s, post[0], st, render);
      assert NoFailure(later) by {
        assert forall i :: 0 <= i < |later| ==> later[i] == post[i + 1];
      }
      NoLaterUsage(u, NextState(s, post[0]), later, st, render);
    }
  }

  lemma UsageSentIsBuffered<J>(f: Frame<J>)
    requires Finishes(f) && f.counts.Some? && Deserializes(f.counts.value)
    ensures UsageIn(f) == Some(BufferedUsage(f.counts.value))
  {
  }

  /** Every count is passed on, thinking tokens as completion tokens, short of an overflow of their sum. */
  lemma CountsArePassedOn(n: TokenCounts)
    requires Deserializes(n)
    ensures var u := BufferedUsage(n);
            && u.prompt == n.prompt.value && u.total == n.total.value && u.cached == n.cached
            && (u.completion == n.candidates.value + (if n.thoughts.Some? then n.thoughts.value else 0)
                || n.candidates.value + (if n.thoughts.Some? then n.thoughts.value else 0) >= U32_RANGE)
  {
  }

  /** Usage agrees too: the one sent with the last finish reason is what the buffered path reports. */
  lemma StreamedUsageIsBuffered<J(!new)>(
    pre: seq<Frame<J>>, f: Frame<J>, post: seq<Frame<J>>, st: Stamp, render: J -> string)
    requires NoFailure(pre + [f] + post)
    requires Finishes(f) && f.counts.Some? && Deserializes(f.counts.value)
    requires forall i :: 0 <= i < |post| ==> !Finishes(post[i])
    ensures FoldUsage(None, Run(FRESH, pre + [f] + post, st, render)) == Some(BufferedUsage(f.counts.value))
    ensures var n, u := f.counts.value, BufferedUsage(f.counts.value);
            && u.prompt == n.prompt.value && u.total == n.total.value && u.cached == n.cached
            && (u.completion == n.candidates.value + (if n.thoughts.Some? then n.thoughts.value else 0)
                || n.candidates.value + (if n.thoughts.Some? then n.thoughts.value else 0) >= U32_RANGE)
  {
    hide Run, FoldUsage, UsageIn, BufferedUsage, NoFailure;
    UsageSentIsBuffered(f);
    CountsArePassedOn(f.counts.value);
    LastUsageDecides(None, FRESH, pre, f, post, st, render);
  }

  // --- Where the two part ----------------------------------------------------------------------

  /** A text part before a call: the stream calls it call_0, the buffered response call_1. */
  lemma TextBeforeCallChangesId<J>(text: string, name: Option<string>, args: Option<J>, render: J -> string)
    ensures var parts := [TextPart(text), FunctionCall(name, args)];
            && StreamedCalls(parts, 0, render) == [CallIn(parts[1], 0, render)]
            && BufferedCalls(parts, render) == [CallIn(parts[1], 1, render)]
            && CallIn(parts[1], 0, render).id == "call_0" && CallIn(parts[1], 1, render).id == "call_1"
  {
    var parts := [TextPart(text), FunctionCall(name, args)];
    assert parts[1..] == [parts[1]] && parts[..1] == [parts[0]];
    var none: seq<Part<J>> := [];
    assert [parts[1]][1..] == none && [parts[0]][..0] == none;
    assert StreamedCalls([parts[1]], 0, render) == [CallIn(parts[1], 0, render)] + StreamedCalls(none, 1, render);
    assert BufferedCalls([parts[0]], render) == BufferedCalls(none, render);
    assert "call_" + Decimal(0) == "call_0" && "call_" + Decimal(1) == "call_1";
  }

  /** A call after the finish reason: the stream has said "stop", the buffered response "tool_calls". */
  lemma CallAfterFinish<J(!new)>(call: Part<J>, st: Stamp, render: J -> string)
    requires call.FunctionCall?
    ensures var frames := [Candidate(None, Some("STOP"), None), Candidate(Some([call]), None, None)];
            FoldChunks(0, NOTHING, Run(FRESH, frames, st, render)).finish == Some("stop")
    ensures FinishFor("STOP", BufferedCalls([call], render) != []) == "tool_calls"
  {
    var f: Frame<J> := Candidate(None, Some("STOP"), None);
    var late := Candidate(Some([call]), None, None);
    assert [f, late] == [] + [f] + [late];
    var none: seq<Frame<J>> := [];
    assert [f][1..] == none && [late][1..] == none && [f, late][1..] == [late];
    assert [call][1..] == [] && [call][..0] == [];
    assert AllParts([late]) == [call] + AllParts(none) && AllParts([f]) == PartsOf(f) + AllParts(none);
    assert AllParts([f, late]) == PartsOf(f) + AllParts([late]) && PartsOf(f) == [];
    assert [call] + AllParts(none) == [call];
    assert CallCount([call]) == 1 + CallCount<J>([]);
    assert none + [f] == [f];
    FoldedFrames(none, f, [late], st, render);
  }
}
