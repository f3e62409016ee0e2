/** Provider names as the cache key sees them: trimmed and in ASCII lower case, so that one provider's
    spellings share a key and two providers never do. */
module ProviderNames {
  import opened Prelude
  import opened Trimming

  predicate IsSpace(b: Byte) { 9 <= b <= 13 || b == 32 }

  function Lower(s: Bytes): (r: Bytes)
    ensures |r| == |s|
  {
    seq(|s|, i requires 0 <= i < |s| => if 'A' as nat <= s[i] <= 'Z' as nat then s[i] + 32 else s[i])
  }

  /** `p.trim().to_ascii_lowercase()` on an ASCII provider name. */
  function Normalize(name: Bytes): Bytes { Lower(Trim(name, IsSpace)) }

  function NormalizeAll(chain: seq<Bytes>): seq<Bytes> {
    seq(|chain|, i requires 0 <= i < |chain| => Normalize(chain[i]))
  }

  // --- What normalization does to a name -------------------------------------------------------

  /** ASCII white space: tab, line feed, vertical tab, form feed, carriage return, space. */
  predicate Blank(b: Byte) { b in {9, 10, 11, 12, 13, 32} }

  /** ASCII lower case: 'A' to 'Z' move up by 32, every other byte stays. */
  ghost predicate Lowers(core: Bytes, lower: Bytes) {
    |lower| == |core| &&
    forall i :: 0 <= i < |core| ==> lower[i] == core[i] + if 65 <= core[i] <= 90 then 32 else 0
  }

  /** Byte by byte equal, or the same ASCII letter in the two cases. */
  ghost predicate EqualUpToCase(a: Bytes, b: Bytes) {
    |a| == |b| && forall i :: 0 <= i < |a| ==>
      a[i] == b[i] || (65 <= a[i] <= 90 && b[i] == a[i] + 32) || (65 <= b[i] <= 90 && a[i] == b[i] + 32)
  }

  /** One provider: the same name up to surrounding white space and ASCII case. */
  ghost predicate SameName(a: Bytes, b: Bytes) {
    exists x, y :: Strips(a, x, Blank) && Strips(b, y, Blank) && EqualUpToCase(x, y)
  }

  ghost predicate SameChain(a: seq<Bytes>, b: seq<Bytes>) {
    |a| == |b| && forall i :: 0 <= i < |a| ==> SameName(a[i], b[i])
  }

  /** A normalized name is the stripped one in lower case. */
  lemma NormalizeStripsAndLowers(name: Bytes, core: Bytes)
    requires Strips(name, core, Blank)
    ensures Lowers(core, Normalize(name))
  {
    TrimIsStrip(name, core, IsSpace, Blank);
  }

  lemma LowersToTheSame(x: Bytes, y: Bytes, a: Bytes, b: Bytes)
    requires Lowers(x, a) && Lowers(y, b)
    ensures a == b <==> EqualUpToCase(x, y)
  {
    if a == b {
      forall i | 0 <= i < |x|
        ensures x[i] == y[i] || (65 <= x[i] <= 90 && y[i] == x[i] + 32) || (65 <= y[i] <= 90 && x[i] == y[i] + 32)
      {
        assert a[i] == b[i];
      }
    }
  }

  /** Two names are normalized alike exactly when they are one provider's. */
  lemma NormalizedAlike(a: Bytes, b: Bytes)
    ensures Normalize(a) == Normalize(b) <==> SameName(a, b)
  {
    hide Strips, Lowers, EqualUpToCase, Normalize;
    var x, y := Trim(a, IsSpace), Trim(b, IsSpace);
    TrimIsStrip(a, x, IsSpace, Blank);
    TrimIsStrip(b, y, IsSpace, Blank);
    NormalizeStripsAndLowers(a, x);
    NormalizeStripsAndLowers(b, y);
    LowersToTheSame(x, y, Normalize(a), Normalize(b));
    if SameName(a, b) {
      var x', y' :| Strips(a, x', Blank) && Strips(b, y', Blank) && EqualUpToCase(x', y');
      StripsOneWay(a, x, x', Blank);
      StripsOneWay(b, y, y', Blank);
    }
  }

  /** Two chains are normalized alike exactly when they name the same providers in the same order. */
  lemma ChainsNormalizedAlike(a: seq<Bytes>, b: seq<Bytes>)
    ensures NormalizeAll(a) == NormalizeAll(b) <==> SameChain(a, b)
  {
    hide SameName, Normalize;
    forall i | 0 <= i < |a| && i < |b| ensures Normalize(a[i]) == Normalize(b[i]) <==> SameName(a[i], b[i]) {
      NormalizedAlike(a[i], b[i]);
    }
    if NormalizeAll(a) == NormalizeAll(b) {
      forall i | 0 <= i < |a| ensures SameName(a[i], b[i]) {
        assert NormalizeAll(a)[i] == NormalizeAll(b)[i];
      }
    }
  }
}
