/** UTF-8 (section 3 of RFC 3629): the encoder, and the lossy decoder that replaces each maximal
    ill-formed part by U+FFFD, as `String::from_utf8_lossy` does. */
module Utf8 {
  import opened Prelude

  type Scalar = c: nat | c < 0xD800 || 0xE000 <= c < 0x11_0000
  type Text = seq<Scalar>

  const REPLACEMENT: Scalar := 0xFFFD

  function EncodeScalar(c: Scalar): (r: Bytes)
    ensures 1 <= |r| <= 4
  {
    if c < 0x80 then [c]
    else if c < 0x800 then [0xC0 + c / 64, 0x80 + c % 64]
    else if c < 0x1_0000 then [0xE0 + c / 4096, 0x80 + c / 64 % 64, 0x80 + c % 64]
    else [0xF0 + c / 262144, 0x80 + c / 4096 % 64, 0x80 + c / 64 % 64, 0x80 + c % 64]
  }

  function Encode(text: Text): Bytes {
    if text == [] then [] else EncodeScalar(text[0]) + Encode(text[1..])
  }

  predicate Continuation(s: Bytes, i: nat) { i < |s| && 0x80 <= s[i] <= 0xBF }

  /** Whether the second byte may follow this lead byte of a three- or four-byte form. */
  predicate SecondByte(s: Bytes)
    requires s != []
  {
    && Continuation(s, 1)
    && (s[0] == 0xE0 ==> s[1] >= 0xA0) && (s[0] == 0xED ==> s[1] <= 0x9F)
    && (s[0] == 0xF0 ==> s[1] >= 0x90) && (s[0] == 0xF4 ==> s[1] <= 0x8F)
  }

  /** The six payload bits of a continuation byte. */
  function Six(s: Bytes, i: nat): (r: nat)
    requires Continuation(s, i)
    ensures r < 64
  {
    s[i] - 0x80
  }

  function Two(lead: nat, x: nat): nat
    requires lead >= 0xC0
  {
    (lead - 0xC0) * 64 + x
  }

  function Three(lead: nat, x: nat, y: nat): nat
    requires lead >= 0xE0
  {
    (lead - 0xE0) * 4096 + x * 64 + y
  }

  function Four(lead: nat, x: nat, y: nat, z: nat): nat
    requires lead >= 0xF0
  {
    (lead - 0xF0) * 262144 + x * 4096 + y * 64 + z
  }

  /** The scalar at the front and the bytes it takes; an ill-formed front yields a replacement for its
      longest well-formed prefix. */
  function DecodeFront(s: Bytes): (r: (Scalar, nat))
    requires s != []
    ensures 1 <= r.1 <= |s|
  {
    var b := s[0];
    if b < 0x80 then (b, 1)
    else if 0xC2 <= b <= 0xDF then
      if Continuation(s, 1) then (Two(b, Six(s, 1)), 2) else (REPLACEMENT, 1)
    else if 0xE0 <= b <= 0xEF then
      if !SecondByte(s) then (REPLACEMENT, 1)
      else if !Continuation(s, 2) then (REPLACEMENT, 2)
      else (Three(b, Six(s, 1), Six(s, 2)), 3)
    else if 0xF0 <= b <= 0xF4 then
      if !SecondByte(s) then (REPLACEMENT, 1)
      else if !Continuation(s, 2) then (REPLACEMENT, 2)
      else if !Continuation(s, 3) then (REPLACEMENT, 3)
      else (Four(b, Six(s, 1), Six(s, 2), Six(s, 3)), 4)
    else (REPLACEMENT, 1)
  }

  function Decode(s: Bytes): Text {
    if s == [] then [] else
      var (c, n) := DecodeFront(s);
      [c] + Decode(s[n..])
  }

  lemma DecodeTwo(c: Scalar, s: Bytes)
    requires 0x80 <= c < 0x800 && |s| >= 2 && s[0] == 0xC0 + c / 64 && s[1] == 0x80 + c % 64
    ensures DecodeFront(s) == (c, 2)
  {
  }

  lemma DecodeThree(c: Scalar, s: Bytes)
    requires 0x800 <= c < 0x1_0000 && |s| >= 3
    requires s[0] == 0xE0 + c / 4096 && s[1] == 0x80 + c / 64 % 64 && s[2] == 0x80 + c % 64
    ensures DecodeFront(s) == (c, 3)
  {
    assert c / 64 == c / 4096 * 64 + c / 64 % 64;
    assert Three(s[0], c / 64 % 64, c % 64) == c;
  }

  lemma DecodeFour(c: Scalar, s: Bytes)
    requires 0x1_0000 <= c && |s| >= 4
    requires s[0] == 0xF0 + c / 262144 && s[1] == 0x80 + c / 4096 % 64 && s[2] == 0x80 + c / 64 % 64
        && s[3] == 0x80 + c % 64
    ensures DecodeFront(s) == (c, 4)
  {
    assert c / 4096 == c / 262144 * 64 + c / 4096 % 64;
    assert c / 64 == c / 4096 * 64 + c / 64 % 64;
    assert Four(s[0], c / 4096 % 64, c / 64 % 64, c % 64) == c;
  }

  lemma DecodeFrontOfEncoded(c: Scalar, rest: Bytes)
    ensures DecodeFront(EncodeScalar(c) + rest) == (c, |EncodeScalar(c)|)
  {
    var s := EncodeScalar(c) + rest;
    assert forall i :: 0 <= i < |EncodeScalar(c)| ==> s[i] == EncodeScalar(c)[i];
    if c >= 0x1_0000 { DecodeFour(c, s); }
    else if c >= 0x800 { DecodeThree(c, s); }
    else if c >= 0x80 { DecodeTwo(c, s); }
  }

  /** Decoding undoes encoding: valid UTF-8 is never damaged. */
  lemma {:induction false} DecodeEncode(text: Text)
    ensures Decode(Encode(text)) == text
  {
    if text != [] {
      var front := EncodeScalar(text[0]);
      DecodeFrontOfEncoded(text[0], Encode(text[1..]));
      assert (front + Encode(text[1..]))[|front|..] == Encode(text[1..]);
      DecodeEncode(text[1..]);
    }
  }

  lemma {:induction false} EncodeConcat(a: Text, b: Text)
    ensures Encode(a + b) == Encode(a) + Encode(b)
  {
    if a == [] {
      assert a + b == b;
    } else {
      assert (a + b)[0] == a[0] && (a + b)[1..] == a[1..] + b;
      EncodeConcat(a[1..], b);
    }
  }

  /** A byte below 0x80 in valid UTF-8 is that scalar, never part of another one. */
  lemma {:induction false} AsciiBytesAreScalars(text: Text, b: Byte)
    requires b < 0x80 && b !in text
    ensures b !in Encode(text)
  {
    if text != [] {
      AsciiBytesAreScalars(text[1..], b);
      assert b !in EncodeScalar(text[0]);
    }
  }
}
