/** The Anthropic byte stream end to end: reads of any size go in, canonical chunks come out. */
module AnthropicStream {
  import opened Prelude
  import opened Utf8
  import opened Sse
  import opened Chunks
  import opened Anthropic

  /** One item of the transport: some bytes, or the error that ends it. */
  datatype Read = Received(bytes: Bytes) | Broken

  function ParseAll(parse: Text -> Event, payloads: seq<Text>): (events: seq<Event>)
    ensures |events| == |payloads|
  {
    if payloads == [] then [] else [parse(payloads[0])] + ParseAll(parse, payloads[1..])
  }

  lemma {:induction false} ParseAllAppend(parse: Text -> Event, a: seq<Text>, b: seq<Text>)
    ensures ParseAll(parse, a + b) == ParseAll(parse, a) + ParseAll(parse, b)
    decreases |a|
  {
    if a == [] {
      assert a + b == b;
    } else {
      assert (a + b)[0] == a[0] && (a + b)[1..] == a[1..] + b;
      ParseAllAppend(parse, a[1..], b);
    }
  }

  /** All bytes read before the transport broke, with the boundaries between reads forgotten. */
  function BytesOf(input: seq<Read>): Bytes {
    if input == [] || input[0].Broken? then [] else input[0].bytes + BytesOf(input[1..])
  }

  /** What the state object does with the complete payloads of a byte sequence. */
  function RunBytes(s: State, parse: Text -> Event, bytes: Bytes, now: nat): Outcome {
    Run(s, ParseAll(parse, Payloads(bytes)), now)
  }

  /** The bytes kept back by the line buffer and the translator's state are all that later reads need. */
  lemma RunBytesAppend(s: State, parse: Text -> Event, a: Bytes, b: Bytes, now: nat)
    ensures RunBytes(s, parse, a + b, now)
         == Then(RunBytes(s, parse, a, now), RunBytes(RunBytes(s, parse, a, now).state, parse, Leftover(a) + b, now))
  {
    PayloadsAppend(a, b);
    ParseAllAppend(parse, Payloads(a), Payloads(Leftover(a) + b));
    RunAppend(s, ParseAll(parse, Payloads(a)), ParseAll(parse, Payloads(Leftover(a) + b)), now);
  }

  lemma RunFirst(s: State, parse: Text -> Event, p: Text, rest: seq<Text>, now: nat)
    ensures Run(s, ParseAll(parse, [p] + rest), now)
         == (var e := parse(p);
             if VerdictOf(e).Continue?
             then Then(Outcome(Emits(s, e, now), Continue, s), Run(NextState(s, e, now), ParseAll(parse, rest), now))
             else Outcome([], VerdictOf(e), s))
  {
    var events := ParseAll(parse, [p] + rest);
    assert ([p] + rest)[1..] == rest;
    assert events[0] == parse(p) && events[1..] == ParseAll(parse, rest);
  }

  /** The inner loop: translate every complete payload, stopping where the stream ends. */
  method TranslateBuffered(sse: SseLineBuffer, state: StreamState, parse: Text -> Event, now: nat)
      returns (out: seq<Chunk>, verdict: Verdict)
    modifies sse, state
    ensures var r := RunBytes(old(state.Value()), parse, old(sse.buf), now);
            && out == r.chunks && verdict == r.verdict && state.Value() == r.state
            && (verdict.Continue? ==> sse.buf == Leftover(old(sse.buf)))
  {
    out, verdict := [], Continue;
    ghost var expected := RunBytes(state.Value(), parse, sse.buf, now);
    while true
      invariant verdict == Continue
      invariant Leftover(sse.buf) == Leftover(old(sse.buf))
      invariant expected == Then(Outcome(out, Continue, state.Value()), RunBytes(state.Value(), parse, sse.buf, now))
      decreases |sse.buf|
    {
      var payload := sse.NextPayload();
      if payload.None? {
        return;
      }
      RunFirst(state.Value(), parse, payload.value, Payloads(sse.buf), now);
      var more;
      more, verdict := state.Translate(parse(payload.value), now);
      if !verdict.Continue? {
        return;
      }
      out := out + more;
    }
  }

  lemma {:induction false} LeftoverHasNoLine(s: Bytes)
    ensures Lines(Leftover(s)) == []
    decreases |s|
  {
    if NewlineAt(s) < |s| {
      LeftoverHasNoLine(s[NewlineAt(s) + 1..]);
    }
  }

  /** What is still to come, given what the buffer keeps. */
  function Remaining(s: State, parse: Text -> Event, buf: Bytes, input: seq<Read>, now: nat): Outcome {
    RunBytes(s, parse, buf + BytesOf(input), now)
  }

  lemma OneMoreRead(s: State, parse: Text -> Event, buf: Bytes, input: seq<Read>, now: nat)
    requires input != [] && input[0].Received?
    ensures var whole := buf + input[0].bytes;
            var r := RunBytes(s, parse, whole, now);
            && Remaining(s, parse, buf, input, now)
            == Then(r, Remaining(r.state, parse, Leftover(whole), input[1..], now))
  {
    var later := BytesOf(input[1..]);
    assert buf + BytesOf(input) == (buf + input[0].bytes) + later;
    RunBytesAppend(s, parse, buf + input[0].bytes, later, now);
  }

  lemma ThenIsAssociative(a: Outcome, b: Outcome, c: Outcome)
    ensures Then(a, Then(b, c)) == Then(Then(a, b), c)
  {
    assert a.chunks + (b.chunks + c.chunks) == (a.chunks + b.chunks) + c.chunks;
  }

  lemma NothingRemains(s: State, parse: Text -> Event, buf: Bytes, input: seq<Read>, now: nat)
    requires Lines(buf) == [] && (input == [] || input[0].Broken?)
    ensures Remaining(s, parse, buf, input, now) == Outcome([], Continue, s)
  {
    assert buf + BytesOf(input) == buf;
  }

  /** The whole translator. Its output is a function of the received bytes alone: how they were cut
      into reads does not appear in the postcondition. A transport error is reported once, last, and
      only if the stream had not already ended. */
  method SseToChunks(input: seq<Read>, parse: Text -> Event, now: nat) returns (out: seq<Chunk>, ending: Verdict)
    ensures var r := RunBytes(FRESH, parse, BytesOf(input), now);
            && out == r.chunks
            && ending == if r.verdict.Continue? && Broken in input then Failed(Transport) else r.verdict
  {
    var sse := new SseLineBuffer();
    var state := new StreamState();
    out, ending := [], Continue;
    assert input[0..] == input && sse.buf + BytesOf(input) == BytesOf(input);
    for k := 0 to |input|
      invariant ending == Continue && Broken !in input[..k]
      invariant Lines(sse.buf) == []
      invariant RunBytes(FRESH, parse, BytesOf(input), now)
             == Then(Outcome(out, Continue, state.Value()), Remaining(state.Value(), parse, sse.buf, input[k..], now))
    {
      if input[k].Broken? {
        NothingRemains(state.Value(), parse, sse.buf, input[k..], now);
        return out, Failed(Transport);
      }
      ghost var before := Outcome(out, Continue, state.Value());
      OneMoreRead(state.Value(), parse, sse.buf, input[k..], now);
      assert input[k..][1..] == input[k + 1..];
      sse.Push(input[k].bytes);
      ghost var whole := sse.buf;
      ghost var r := RunBytes(state.Value(), parse, whole, now);
      ThenIsAssociative(before, r, Remaining(r.state, parse, Leftover(whole), input[k + 1..], now));
      var more;
      more, ending := TranslateBuffered(sse, state, parse, now);
      out := out + more;
      if !ending.Continue? {
        return;
      }
      LeftoverHasNoLine(whole);
    }
    NothingRemains(state.Value(), parse, sse.buf, input[|input|..], now);
    assert input[..|input|] == input;
  }

  /** For valid UTF-8 the cuts may even fall inside a scalar: the chunks are those of the decoded text. */
  method TextToChunks(ghost text: Text, input: seq<Read>, parse: Text -> Event, now: nat)
      returns (out: seq<Chunk>, ending: Verdict)
    requires BytesOf(input) == Encode(text)
    ensures var r := Run(FRESH, ParseAll(parse, TextPayloads(text)), now);
            && out == r.chunks
            && ending == if r.verdict.Continue? && Broken in input then Failed(Transport) else r.verdict
  {
    DecodingPerLineIsDecodingTheWhole(text);
    out, ending := SseToChunks(input, parse, now);
  }
}
