/** What lossy decoding does to bytes that are no UTF-8: each longest part that could have begun a scalar,
    at least one byte, becomes one U+FFFD (the maximal subparts of section 3.9 of the Unicode Standard). */
module Utf8Lossy {
  import opened Prelude
  import opened Utf8

  /** The bytes are the beginning of some scalar's encoding, or all of it. */
  ghost predicate Begins(p: Bytes) { exists c :: p <= EncodeScalar(c) }

  ghost predicate NoScalarInFront(s: Bytes) { forall c :: !(EncodeScalar(c) <= s) }

  /** The shape every encoding has. */
  lemma EncodingShape(c: Scalar)
    ensures var e := EncodeScalar(c);
            && (|e| == 1 ==> e[0] < 0x80) && (|e| == 2 ==> 0xC2 <= e[0] <= 0xDF)
            && (|e| == 3 ==> 0xE0 <= e[0] <= 0xEF && SecondByte(e))
            && (|e| == 4 ==> 0xF0 <= e[0] <= 0xF4 && SecondByte(e))
            && forall i :: 1 <= i < |e| ==> 0x80 <= e[i] <= 0xBF
  {
    if 0x800 <= c < 0x1_0000 {
      assert c == c / 4096 * 4096 + c / 64 % 64 * 64 + c % 64;
    } else if 0x1_0000 <= c {
      assert c == c / 262144 * 262144 + c / 4096 % 64 * 4096 + c / 64 % 64 * 64 + c % 64;
    }
  }

  lemma ThreeEncodes(lead: Byte, x: nat, y: nat)
    requires 0xE0 <= lead <= 0xEF && x < 64 && y < 64
    requires (lead == 0xE0 ==> x >= 0x20) && (lead == 0xED ==> x < 0x20)
    ensures var c := Three(lead, x, y);
            0x800 <= c < 0x1_0000 && (c < 0xD800 || 0xE000 <= c) && EncodeScalar(c) == [lead, 0x80 + x, 0x80 + y]
  {
    var c := Three(lead, x, y);
    assert c / 64 == (lead - 0xE0) * 64 + x && c % 64 == y;
    assert c / 4096 == lead - 0xE0 && c / 64 % 64 == x;
  }

  lemma FourEncodes(lead: Byte, x: nat, y: nat, z: nat)
    requires 0xF0 <= lead <= 0xF4 && x < 64 && y < 64 && z < 64
    requires (lead == 0xF0 ==> x >= 0x10) && (lead == 0xF4 ==> x < 0x10)
    ensures var c := Four(lead, x, y, z);
            0x1_0000 <= c < 0x11_0000 && EncodeScalar(c) == [lead, 0x80 + x, 0x80 + y, 0x80 + z]
  {
    var c := Four(lead, x, y, z);
    assert c / 64 == (lead - 0xF0) * 4096 + x * 64 + y && c % 64 == z;
    assert c / 4096 == (lead - 0xF0) * 64 + x && c / 64 % 64 == y;
    assert c / 262144 == lead - 0xF0 && c / 4096 % 64 == x;
  }

  lemma TwoEncodes(lead: Byte, x: nat)
    requires 0xC2 <= lead <= 0xDF && x < 64
    ensures var c := Two(lead, x); 0x80 <= c < 0x800 && EncodeScalar(c) == [lead, 0x80 + x]
  {
    var c := Two(lead, x);
    assert c / 64 == lead - 0xC0 && c % 64 == x;
  }

  /** A decoded scalar's encoding is what was read. */
  lemma FrontIsEncoded(s: Bytes)
    requires s != []
    ensures var r := DecodeFront(s);
            EncodeScalar(r.0) == s[..r.1] || (r.0 == REPLACEMENT && r.1 < 4)
  {
    var b := s[0];
    if 0xC2 <= b <= 0xDF {
      if Continuation(s, 1) {
        TwoEncodes(b, Six(s, 1));
      }
    } else if 0xE0 <= b <= 0xEF {
      if SecondByte(s) && Continuation(s, 2) {
        ThreeEncodes(b, Six(s, 1), Six(s, 2));
        assert s[..3] == [b, s[1], s[2]];
      }
    } else if 0xF0 <= b <= 0xF4 {
      if SecondByte(s) && Continuation(s, 2) && Continuation(s, 3) {
        FourEncodes(b, Six(s, 1), Six(s, 2), Six(s, 3));
        assert s[..4] == [b, s[1], s[2], s[3]];
      }
    }
  }

  /** What is replaced, beyond one byte, could have begun a scalar. */
  lemma ReplacedPartBegins(s: Bytes)
    requires s != [] && DecodeFront(s).1 > 1
    ensures Begins(s[..DecodeFront(s).1])
  {
    var b, n := s[0], DecodeFront(s).1;
    FrontIsEncoded(s);
    if EncodeScalar(DecodeFront(s).0) == s[..n] {
      assert s[..n] <= EncodeScalar(DecodeFront(s).0);
    } else if b <= 0xEF {
      ThreeEncodes(b, Six(s, 1), 0);
      assert s[..2] <= EncodeScalar(Three(b, Six(s, 1), 0));
    } else if n == 2 {
      FourEncodes(b, Six(s, 1), 0, 0);
      assert s[..2] <= EncodeScalar(Four(b, Six(s, 1), 0, 0));
    } else {
      FourEncodes(b, Six(s, 1), Six(s, 2), 0);
      assert s[..3] <= EncodeScalar(Four(b, Six(s, 1), Six(s, 2), 0));
    }
  }

  /** Nothing longer could have. */
  lemma NothingLongerBegins(s: Bytes, c: Scalar, m: nat)
    requires s != [] && DecodeFront(s).1 < m <= |s| && s[..m] <= EncodeScalar(c)
    ensures EncodeScalar(DecodeFront(s).0) == s[..DecodeFront(s).1]
  {
    var e := EncodeScalar(c);
    EncodingShape(c);
    FrontIsEncoded(s);
    assert forall i :: 0 <= i < m ==> s[i] == e[i];
  }

  /** The first n bytes become c: they are its encoding, or no scalar is encoded there and they are the
      longest part that could have begun one, or a single byte if none could. */
  ghost predicate FrontPart(s: Bytes, c: Scalar, n: nat) {
    && 1 <= n <= |s|
    && (|| EncodeScalar(c) == s[..n]
        || (c == REPLACEMENT && NoScalarInFront(s) && (n > 1 ==> Begins(s[..n]))
            && forall m :: n < m <= |s| ==> !Begins(s[..m])))
  }

  lemma DecodeFrontIsFrontPart(s: Bytes)
    requires s != []
    ensures FrontPart(s, DecodeFront(s).0, DecodeFront(s).1)
  {
    var r := DecodeFront(s);
    FrontIsEncoded(s);
    if EncodeScalar(r.0) != s[..r.1] {
      forall d ensures !(EncodeScalar(d) <= s) {
        FrontEncodingIsRead(s, d);
      }
      if r.1 > 1 {
        ReplacedPartBegins(s);
      }
      forall m, d | r.1 < m <= |s| ensures !(s[..m] <= EncodeScalar(d)) {
        if s[..m] <= EncodeScalar(d) {
          NothingLongerBegins(s, d, m);
          assert false;
        }
      }
    }
  }

  lemma FrontEncodingIsRead(s: Bytes, d: Scalar)
    requires s != []
    ensures EncodeScalar(d) <= s ==> EncodeScalar(DecodeFront(s).0) == s[..DecodeFront(s).1]
  {
    if EncodeScalar(d) <= s {
      DecodeFrontOfEncoded(d, s[|EncodeScalar(d)|..]);
      assert s == EncodeScalar(d) + s[|EncodeScalar(d)|..];
    }
  }

  lemma FrontPartIsUnique(s: Bytes, c: Scalar, n: nat, d: Scalar, m: nat)
    requires s != [] && FrontPart(s, c, n) && FrontPart(s, d, m)
    ensures c == d && n == m
  {
    FrontReadsBack(s, c, n);
    FrontReadsBack(s, d, m);
    if NoScalarInFront(s) {
      assert EncodeScalar(c) == s[..n] ==> EncodeScalar(c) <= s;
      assert EncodeScalar(d) == s[..m] ==> EncodeScalar(d) <= s;
    }
  }

  lemma FrontReadsBack(s: Bytes, c: Scalar, n: nat)
    requires 1 <= n <= |s|
    ensures EncodeScalar(c) == s[..n] ==> DecodeFront(s) == (c, n)
  {
    DecodeFrontOfEncoded(c, s[n..]);
    assert s == s[..n] + s[n..];
  }

  /** t reads s part by part. */
  ghost predicate Reads(s: Bytes, t: Text)
    decreases |s|
  {
    if s == [] then t == []
    else t != [] && exists n: nat :: 1 <= n <= |s| && FrontPart(s, t[0], n) && Reads(s[n..], t[1..])
  }

  /** Lossy decoding is that reading and no other, for any bytes at all. */
  lemma {:induction false} DecodeIsLossyReading(s: Bytes, t: Text)
    ensures Reads(s, t) <==> t == Decode(s)
    decreases |s|
  {
    hide FrontPart, DecodeFront;
    if s != [] {
      var (c, n) := DecodeFront(s);
      DecodeFrontIsFrontPart(s);
      DecodeIsLossyReading(s[n..], Decode(s[n..]));
      if Reads(s, t) {
        var m: nat :| 1 <= m <= |s| && FrontPart(s, t[0], m) && Reads(s[m..], t[1..]);
        FrontPartIsUnique(s, c, n, t[0], m);
        DecodeIsLossyReading(s[n..], t[1..]);
        assert t == [t[0]] + t[1..];
      }
      if t == Decode(s) {
        assert t[0] == c && t[1..] == Decode(s[n..]);
      }
    }
  }
}
