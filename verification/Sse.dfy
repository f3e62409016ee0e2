/** The SSE line reassembler: bytes arrive in arbitrary chunks, whole `data:` payloads come out. */
module Sse {
  import opened Prelude
  import opened Trimming
  import opened Utf8

  const NEWLINE: Byte := 10
  const CARRIAGE_RETURN: Byte := 13

  // --- The line format -------------------------------------------------------------------------

  /** Complete lines of a byte sequence, each without its newline. */
  function Lines(s: Bytes): seq<Bytes> {
    var n := NewlineAt(s);
    if n == |s| then [] else [s[..n]] + Lines(s[n + 1..])
  }

  /** What follows the last newline. */
  function Leftover(s: Bytes): Bytes {
    var n := NewlineAt(s);
    if n == |s| then s else Leftover(s[n + 1..])
  }

  function NewlineAt(s: Bytes): (n: nat)
    ensures n <= |s| && NEWLINE !in s[..n] && (n < |s| ==> s[n] == NEWLINE)
  {
    if s == [] || s[0] == NEWLINE then 0 else
      var n := NewlineAt(s[1..]);
      assert s[..n + 1] == [s[0]] + s[1..][..n];
      n + 1
  }

  /** The White_Space property of Unicode, which `str::trim` strips. */
  predicate IsWhiteSpace(c: Scalar) {
    || 9 <= c <= 13 || c == 32 || c == 0x85 || c == 0xA0 || c == 0x1680 || 0x2000 <= c <= 0x200A
    || c == 0x2028 || c == 0x2029 || c == 0x202F || c == 0x205F || c == 0x3000
  }

  function TrimEndMatches(t: Text, c: Scalar): Text {
    if t != [] && t[|t| - 1] == c then TrimEndMatches(t[..|t| - 1], c) else t
  }

  /** "data:" */
  const DATA_PREFIX: Text := [100, 97, 116, 97, 58]

  /** The payload of one decoded line, its newline still attached; `None` for any other line. */
  function PayloadOfText(line: Text): Option<Text> {
    var body := TrimEndMatches(TrimEndMatches(line, NEWLINE), CARRIAGE_RETURN);
    if DATA_PREFIX <= body then Some(Trim(body[|DATA_PREFIX|..], IsWhiteSpace)) else None
  }

  function PayloadOfLine(line: Bytes): Option<Text> { PayloadOfText(Decode(line + [NEWLINE])) }

  function PayloadsOfLines(lines: seq<Bytes>): seq<Text> {
    if lines == [] then [] else
      match PayloadOfLine(lines[0])
      case Some(p) => [p] + PayloadsOfLines(lines[1..])
      case None => PayloadsOfLines(lines[1..])
  }

  /** The line-by-line specification: the payloads of all complete lines of the whole input. */
  function Payloads(s: Bytes): seq<Text> { PayloadsOfLines(Lines(s)) }

  // --- Splitting and joining -------------------------------------------------------------------

  /** Newline-terminated lines followed by the leftover are the input again, and no line holds a newline. */
  function Join(lines: seq<Bytes>, rest: Bytes): Bytes {
    if lines == [] then rest else lines[0] + [NEWLINE] + Join(lines[1..], rest)
  }

  lemma {:induction false} LinesJoin(s: Bytes)
    ensures Join(Lines(s), Leftover(s)) == s
    ensures NEWLINE !in Leftover(s) && forall i :: 0 <= i < |Lines(s)| ==> NEWLINE !in Lines(s)[i]
    decreases |s|
  {
    var n := NewlineAt(s);
    if n < |s| {
      LinesJoin(s[n + 1..]);
      assert s == s[..n] + [NEWLINE] + s[n + 1..];
    } else {
      assert s[..n] == s;
    }
  }

  lemma {:induction false} NewlineAtAppend(a: Bytes, b: Bytes)
    requires NewlineAt(a) < |a|
    ensures NewlineAt(a + b) == NewlineAt(a)
  {
    if a[0] != NEWLINE {
      assert (a + b)[1..] == a[1..] + b;
      NewlineAtAppend(a[1..], b);
    }
  }

  /** The first complete line stays in front, whatever is appended. */
  lemma AppendKeepsFirstLine(a: Bytes, b: Bytes)
    requires NewlineAt(a) < |a|
    ensures Lines(a + b) == [a[..NewlineAt(a)]] + Lines(a[NewlineAt(a) + 1..] + b)
    ensures Leftover(a + b) == Leftover(a[NewlineAt(a) + 1..] + b)
  {
    var n := NewlineAt(a);
    NewlineAtAppend(a, b);
    assert (a + b)[..n] == a[..n];
    assert (a + b)[n + 1..] == a[n + 1..] + b;
  }

  /** Reassembly: what was left over is all a later chunk needs to know about the earlier ones. */
  lemma {:induction false} LinesAppend(a: Bytes, b: Bytes)
    ensures Lines(a + b) == Lines(a) + Lines(Leftover(a) + b)
    ensures Leftover(a + b) == Leftover(Leftover(a) + b)
    decreases |a|
  {
    if NewlineAt(a) < |a| {
      AppendKeepsFirstLine(a, b);
      LinesAppend(a[NewlineAt(a) + 1..], b);
    }
  }

  lemma {:induction false} PayloadsOfConcat(a: seq<Bytes>, b: seq<Bytes>)
    ensures PayloadsOfLines(a + b) == PayloadsOfLines(a) + PayloadsOfLines(b)
  {
    if a == [] {
      assert a + b == b;
    } else {
      assert (a + b)[1..] == a[1..] + b;
      PayloadsOfConcat(a[1..], b);
    }
  }

  lemma PayloadsAppend(a: Bytes, b: Bytes)
    ensures Payloads(a + b) == Payloads(a) + Payloads(Leftover(a) + b)
  {
    LinesAppend(a, b);
    PayloadsOfConcat(Lines(a), Lines(Leftover(a) + b));
  }

  // --- The buffer ------------------------------------------------------------------------------

  class SseLineBuffer {
    var buf: Bytes

    constructor ()
      ensures buf == []
    {
      buf := [];
    }

    method Push(bytes: Bytes)
      modifies this
      ensures buf == old(buf) + bytes
    {
      buf := buf + bytes;
    }

    /** Pops the next whole payload, skipping every other complete line before it. */
    method NextPayload() returns (payload: Option<Text>)
      modifies this
      ensures Leftover(buf) == Leftover(old(buf))
      ensures payload.None? ==> Payloads(old(buf)) == [] && buf == Leftover(old(buf))
      ensures payload.Some? ==> Payloads(old(buf)) == [payload.value] + Payloads(buf) && |buf| < |old(buf)|
    {
      while true
        invariant Payloads(buf) == Payloads(old(buf)) && Leftover(buf) == Leftover(old(buf)) && |buf| <= |old(buf)|
        decreases |buf|
      {
        var newline := NewlineAt(buf);
        if newline == |buf| {
          return None;
        }
        var line := buf[..newline + 1];
        assert line == buf[..newline] + [NEWLINE];
        assert Lines(buf) == [buf[..newline]] + Lines(buf[newline + 1..]);
        buf := buf[newline + 1..];
        payload := PayloadOfText(Decode(line));
        if payload.Some? {
          return;
        }
      }
    }

    /** The adapters' inner loop: take payloads until none is complete. */
    method Drain() returns (out: seq<Text>)
      modifies this
      ensures out == Payloads(old(buf)) && buf == Leftover(old(buf))
    {
      out := [];
      while true
        invariant Payloads(old(buf)) == out + Payloads(buf) && Leftover(buf) == Leftover(old(buf))
        decreases |buf|
      {
        var payload := NextPayload();
        if payload.None? {
          return;
        }
        out := out + [payload.value];
      }
    }
  }

  function Concat(chunks: seq<Bytes>): Bytes {
    if chunks == [] then [] else Concat(chunks[..|chunks| - 1]) + chunks[|chunks| - 1]
  }

  /** Chunking is invisible: whatever the chunk boundaries, the payloads and the bytes left over are
      those of the whole input. */
  method FeedAll(chunks: seq<Bytes>) returns (out: seq<Text>, rest: Bytes)
    ensures out == Payloads(Concat(chunks)) && rest == Leftover(Concat(chunks))
  {
    var sse := new SseLineBuffer();
    out := [];
    for k := 0 to |chunks|
      invariant out == Payloads(Concat(chunks[..k])) && sse.buf == Leftover(Concat(chunks[..k]))
    {
      assert chunks[..k + 1][..k] == chunks[..k];
      PayloadsAppend(Concat(chunks[..k]), chunks[k]);
      LinesAppend(Concat(chunks[..k]), chunks[k]);
      sse.Push(chunks[k]);
      var more := sse.Drain();
      out := out + more;
    }
    assert chunks[..|chunks|] == chunks;
    rest := sse.buf;
  }

  // --- Multi-byte text -------------------------------------------------------------------------

  function TextNewlineAt(t: Text): (n: nat)
    ensures n <= |t| && NEWLINE !in t[..n] && (n < |t| ==> t[n] == NEWLINE)
  {
    if t == [] || t[0] == NEWLINE then 0 else
      var n := TextNewlineAt(t[1..]);
      assert t[..n + 1] == [t[0]] + t[1..][..n];
      n + 1
  }

  /** The format read on already decoded text: payloads of its complete lines. */
  function TextPayloads(t: Text): seq<Text> {
    var n := TextNewlineAt(t);
    if n == |t| then [] else
      match PayloadOfText(t[..n + 1])
      case Some(p) => [p] + TextPayloads(t[n + 1..])
      case None => TextPayloads(t[n + 1..])
  }

  lemma {:induction false} NewlineAtIsFirst(s: Bytes, n: nat)
    requires n <= |s| && NEWLINE !in s[..n] && (n < |s| ==> s[n] == NEWLINE)
    ensures NewlineAt(s) == n
  {
    if n > 0 {
      assert s[0] in s[..n];
      assert s[1..][..n - 1] == s[..n][1..];
      NewlineAtIsFirst(s[1..], n - 1);
    }
  }

  /** For well-formed UTF-8, decoding line by line is decoding the whole and then splitting: a line
      boundary never falls inside a scalar. */
  lemma {:induction false} DecodingPerLineIsDecodingTheWhole(t: Text)
    ensures Payloads(Encode(t)) == TextPayloads(t)
    decreases |t|
  {
    hide PayloadOfText, Decode;
    var n, s := TextNewlineAt(t), Encode(t);
    AsciiBytesAreScalars(t[..n], NEWLINE);
    if n == |t| {
      assert t[..n] == t;
      assert s[..|s|] == s;
      NewlineAtIsFirst(s, |s|);
    } else {
      var line := t[..n + 1];
      assert line == t[..n] + [NEWLINE] && t == line + t[n + 1..];
      EncodeConcat(t[..n], [NEWLINE]);
      EncodeConcat(line, t[n + 1..]);
      assert Encode([NEWLINE]) == [NEWLINE];
      var m := |Encode(t[..n])|;
      assert s[..m] == Encode(t[..n]) && s[m + 1..] == Encode(t[n + 1..]);
      NewlineAtIsFirst(s, m);
      assert Lines(s) == [s[..m]] + Lines(s[m + 1..]);
      DecodeEncode(line);
      DecodingPerLineIsDecodingTheWhole(t[n + 1..]);
    }
  }

  /** However valid UTF-8 text is cut into chunks, even inside a scalar, no payload is damaged. */
  method FeedText(ghost t: Text, chunks: seq<Bytes>) returns (out: seq<Text>)
    requires Concat(chunks) == Encode(t)
    ensures out == TextPayloads(t)
  {
    ghost var rest;
    out, rest := FeedAll(chunks);
    DecodingPerLineIsDecodingTheWhole(t);
  }
}
