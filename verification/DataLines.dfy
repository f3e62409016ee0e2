/** What a `data:` payload is, in terms of the line alone, and that the reassembler yields exactly those. */
module DataLines {
  import opened Prelude
  import opened Sse
  import opened Trimming
  import opened Utf8

  /** Unicode's White_Space, code point by code point. */
  predicate White(c: Scalar) {
    c in {9, 10, 11, 12, 13, 32, 0x85, 0xA0, 0x1680, 0x2000, 0x2001, 0x2002, 0x2003, 0x2004, 0x2005, 0x2006,
          0x2007, 0x2008, 0x2009, 0x200A, 0x2028, 0x2029, 0x202F, 0x205F, 0x3000}
  }

  /** 'd', 'a', 't', 'a', ':'. */
  const DATA: Text := [0x64, 0x61, 0x74, 0x61, 0x3A]

  /** The line is "data:" and then x, with white space around x and none at its ends. */
  ghost predicate CarriesData(line: Text, x: Text) {
    DATA <= line && Strips(line[5..], x, White)
  }

  ghost predicate OneLine(line: Text) { NEWLINE !in line }

  lemma {:induction false} TrimEndMatchesStops(t: Text, c: Scalar) returns (v: Text)
    ensures t == TrimEndMatches(t, c) + v && forall i :: 0 <= i < |v| ==> v[i] == c
  {
    v := [];
    if t != [] && t[|t| - 1] == c {
      var more := TrimEndMatchesStops(t[..|t| - 1], c);
      v := more + [c];
    }
  }

  /** The newline goes, and nothing before it. */
  lemma NewlineIsDropped(line: Text)
    requires OneLine(line)
    ensures TrimEndMatches(line + [NEWLINE], NEWLINE) == line
  {
    assert (line + [NEWLINE])[..|line|] == line;
    if line != [] {
      assert line[|line| - 1] in line;
    }
  }

  lemma WhiteSpaceIsWhite()
    ensures forall c: Scalar :: IsWhiteSpace(c) == White(c)
  {
  }

  /** Exactly what a line yields: x if the line carries x, and nothing unless it starts with "data:". */
  lemma PayloadExactly(line: Text, x: Text)
    requires OneLine(line)
    ensures PayloadOfText(line + [NEWLINE]) == Some(x) <==> CarriesData(line, x)
    ensures PayloadOfText(line + [NEWLINE]).None? <==> !(DATA <= line)
  {
    hide Strips, Trim;
    NewlineIsDropped(line);
    var body := TrimEndMatches(line, CARRIAGE_RETURN);
    var crs := TrimEndMatchesStops(line, CARRIAGE_RETURN);
    PrefixSurvives(line, body, crs);
    if DATA <= line {
      assert line[5..] == body[5..] + crs;
      assert All(crs, White);
      MoreSpace<Scalar>(body[5..], crs, x, White);
      WhiteSpaceIsWhite();
      TrimIsStrip(body[5..], x, IsWhiteSpace, White);
    }
  }

  lemma PrefixSurvives(line: Text, body: Text, crs: Text)
    requires line == body + crs && forall i :: 0 <= i < |crs| ==> crs[i] == CARRIAGE_RETURN
    ensures DATA <= body <==> DATA <= line
  {
    if |body| < |line| {
      assert line[|body|] == crs[0];
    }
    assert forall i :: 0 <= i < 5 ==> DATA[i] != CARRIAGE_RETURN;
    assert DATA <= line ==> forall i :: 0 <= i < 5 ==> line[i] == DATA[i];
  }

  /** The same on the wire: the first line of a UTF-8 stream yields its payload, whatever follows. */
  lemma FirstLineYields(line: Text, rest: Text, x: Text)
    requires OneLine(line)
    ensures CarriesData(line, x) ==>
              Payloads(Encode(line + [NEWLINE] + rest)) == [x] + Payloads(Encode(rest))
    ensures !(DATA <= line) ==> Payloads(Encode(line + [NEWLINE] + rest)) == Payloads(Encode(rest))
  {
    hide PayloadOfText, CarriesData, Payloads, Encode;
    var t := line + [NEWLINE] + rest;
    DecodingPerLineIsDecodingTheWhole(t);
    DecodingPerLineIsDecodingTheWhole(rest);
    PayloadExactly(line, x);
    TextNewlineIsFirst(t, |line|);
    assert t[..|line| + 1] == line + [NEWLINE] && t[|line| + 1..] == rest;
  }

  lemma {:induction false} TextNewlineIsFirst(t: Text, n: nat)
    requires n < |t| && NEWLINE !in t[..n] && t[n] == NEWLINE
    ensures TextNewlineAt(t) == n
  {
    if n > 0 {
      assert t[0] in t[..n];
      assert t[1..][..n - 1] == t[..n][1..];
      TextNewlineIsFirst(t[1..], n - 1);
    }
  }

  function Carrying(w: Text, x: Text, v: Text, crs: nat): Text {
    DATA + w + x + v + seq(crs, _ => CARRIAGE_RETURN) + [NEWLINE]
  }

  /** A well-formed line, however padded and with however many carriage returns, gives back what was put
      in, and the rest of the stream is read as if it stood alone. */
  lemma DataGoesThrough(w: Text, x: Text, v: Text, crs: nat, rest: Text)
    requires OneLine(w) && OneLine(x) && OneLine(v) && All(w, White) && All(v, White)
    requires x != [] ==> !White(x[0]) && !White(x[|x| - 1])
    ensures Payloads(Encode(Carrying(w, x, v, crs) + rest)) == [x] + Payloads(Encode(rest))
  {
    hide Strips, Payloads, Encode;
    var tail: Text := v + seq(crs, _ => CARRIAGE_RETURN);
    var line: Text := DATA + (w + x + tail);
    assert Carrying(w, x, v, crs) == line + [NEWLINE];
    assert All(tail, White);
    StripsAround<Scalar>(w, x, tail, White);
    assert line[5..] == w + x + tail;
    FirstLineYields(line, rest, x);
  }

  // --- Whole streams ---------------------------------------------------------------------------

  /** What an upstream puts on the wire: a payload between padding, or a line of another kind. */
  datatype Line = Data(before: Text, payload: Text, after: Text, crs: nat) | Other(text: Text)

  ghost predicate WellFormed(l: Line) {
    match l
    case Data(w, x, v, _) =>
      && OneLine(w) && OneLine(x) && OneLine(v) && All(w, White) && All(v, White)
      && (x != [] ==> !White(x[0]) && !White(x[|x| - 1]))
    case Other(text) => OneLine(text) && !(DATA <= text)
  }

  function Wire(lines: seq<Line>): Text {
    if lines == [] then [] else
      (match lines[0]
       case Data(w, x, v, crs) => Carrying(w, x, v, crs)
       case Other(text) => text + [NEWLINE]) + Wire(lines[1..])
  }

  function PutIn(lines: seq<Line>): seq<Text> {
    if lines == [] then [] else
      (if lines[0].Data? then [lines[0].payload] else []) + PutIn(lines[1..])
  }

  lemma {:induction false} WireGoesThrough(lines: seq<Line>)
    requires forall k :: 0 <= k < |lines| ==> WellFormed(lines[k])
    ensures Payloads(Encode(Wire(lines))) == PutIn(lines)
  {
    hide Payloads, Encode, Carrying;
    if lines == [] {
      NothingYieldsNothing();
    } else {
      WireGoesThrough(lines[1..]);
      assert WellFormed(lines[0]);
      match lines[0] {
        case Data(w, x, v, crs) => DataGoesThrough(w, x, v, crs, Wire(lines[1..]));
        case Other(text) => FirstLineYields(text, Wire(lines[1..]), []);
      }
    }
  }

  lemma NothingYieldsNothing()
    ensures Payloads(Encode([])) == []
  {
  }

  /** However the wire's bytes are cut into reads, exactly the payloads put in come out, in order. */
  method Receive(ghost lines: seq<Line>, chunks: seq<Bytes>) returns (out: seq<Text>)
    requires forall k :: 0 <= k < |lines| ==> WellFormed(lines[k])
    requires Concat(chunks) == Encode(Wire(lines))
    ensures out == PutIn(lines)
  {
    var rest;
    out, rest := FeedAll(chunks);
    WireGoesThrough(lines);
  }
}
