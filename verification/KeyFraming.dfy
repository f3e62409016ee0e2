/** The bytes that are hashed into a cache key: canonical request JSON, provider chain, generation. */
module KeyFraming {
  import opened Prelude
  import opened ProviderNames
  import opened Trimming

  const UNIT_SEPARATOR: Byte := 0x1f
  const RECORD_SEPARATOR: Byte := 0x1e

  function LittleEndian(g: nat, n: nat): (r: Bytes)
    ensures |r| == n
  {
    if n == 0 then [] else [g % 256] + LittleEndian(g / 256, n - 1)
  }

  function Chain(names: seq<Bytes>): Bytes {
    if names == [] then [] else names[0] + [UNIT_SEPARATOR] + Chain(names[1..])
  }

  function Generation(g: nat): Bytes {
    if g > 0 then [RECORD_SEPARATOR] + LittleEndian(g, 8) else []
  }

  /** What `exact_key_gen` feeds to the hasher. */
  function Preimage(json: Bytes, chain: seq<Bytes>, generation: nat): Bytes {
    json + [UNIT_SEPARATOR] + (Chain(NormalizeAll(chain)) + Generation(generation))
  }

  // --- Unique parsing --------------------------------------------------------------------------

  ghost predicate Free(s: Bytes, b: Byte) { forall i :: 0 <= i < |s| ==> s[i] != b }

  ghost predicate AllFree(names: seq<Bytes>, b: Byte) {
    forall i :: 0 <= i < |names| ==> Free(names[i], b)
  }

  lemma SplitAtSeparator(a: Bytes, x: Bytes, b: Bytes, y: Bytes, sep: Byte)
    requires Free(a, sep) && Free(b, sep) && a + [sep] + x == b + [sep] + y
    ensures a == b && x == y
  {
    var whole := a + [sep] + x;
    assert whole[|a|] == sep && (b + [sep] + y)[|b|] == sep;
    assert a == whole[..|a|] && b == whole[..|b|];
    assert x == whole[|a| + 1..] && y == whole[|b| + 1..];
  }

  ghost function Pow256(n: nat): nat {
    if n == 0 then 1 else 256 * Pow256(n - 1)
  }

  lemma {:induction false} LittleEndianInjective(g: nat, h: nat, n: nat)
    requires g < Pow256(n) && h < Pow256(n) && LittleEndian(g, n) == LittleEndian(h, n)
    ensures g == h
  {
    if n > 0 {
      assert LittleEndian(g, n)[1..] == LittleEndian(g / 256, n - 1);
      assert LittleEndian(h, n)[1..] == LittleEndian(h / 256, n - 1);
      assert LittleEndian(g, n)[0] == LittleEndian(h, n)[0];
      LittleEndianInjective(g / 256, h / 256, n - 1);
    }
  }

  lemma GenerationInjective(g: nat, h: nat)
    requires g <= U64_MAX && h <= U64_MAX && Generation(g) == Generation(h)
    ensures g == h
  {
    if g > 0 && h > 0 {
      assert Generation(g)[1..] == LittleEndian(g, 8) && Generation(h)[1..] == LittleEndian(h, 8);
      assert Pow256(8) == U64_MAX + 1 by {
        assert Pow256(4) == 0x1_0000_0000;
        assert Pow256(6) == 0x1_0000_0000_0000;
      }
      LittleEndianInjective(g, h, 8);
    }
  }

  // --- When a generation reads as provider names -----------------------------------------------

  /** The most significant of a generation's eight bytes, the last one hashed. */
  function TopByte(g: nat): Byte { LittleEndian(g, 8)[7] }

  function Shifted(g: nat, k: nat): nat
    decreases k
  {
    if k == 0 then g else Shifted(g / 256, k - 1)
  }

  function Scaled(x: nat, k: nat): nat {
    if k == 0 then x else 256 * Scaled(x, k - 1)
  }

  lemma {:induction false} LittleEndianDigit(g: nat, n: nat, k: nat)
    requires k < n
    ensures LittleEndian(g, n)[k] == Shifted(g, k) % 256
    decreases k
  {
    if k > 0 {
      LittleEndianDigit(g / 256, n - 1, k - 1);
      assert LittleEndian(g, n)[k] == LittleEndian(g / 256, n - 1)[k - 1];
    }
  }

  lemma {:induction false} ShiftedAtLeast(g: nat, k: nat, x: nat)
    ensures Shifted(g, k) >= x <==> g >= Scaled(x, k)
    decreases k
  {
    if k > 0 {
      ShiftedAtLeast(g / 256, k - 1, x);
    }
  }

  /** Which generations have that byte equal to the unit separator: none that counting purges reaches. */
  lemma TopByteIsUnitSeparator(g: nat)
    requires g <= U64_MAX
    ensures TopByte(g) == UNIT_SEPARATOR <==> 0x1F00_0000_0000_0000 <= g < 0x2000_0000_0000_0000
  {
    LittleEndianDigit(g, 8, 7);
    ShiftedAtLeast(g, 7, 0x1f);
    ShiftedAtLeast(g, 7, 0x20);
    ShiftedAtLeast(g, 7, 0x100);
    ScaledBySeven(0x1f);
    ScaledBySeven(0x20);
    ScaledBySeven(0x100);
  }

  lemma ScaledBySeven(x: nat)
    ensures Scaled(x, 7) == x * 0x100_0000_0000_0000
  {
    assert Scaled(x, 1) == x * 0x100;
    assert Scaled(x, 2) == x * 0x1_0000;
    assert Scaled(x, 4) == x * 0x1_0000_0000;
    assert Scaled(x, 6) == x * 0x1_0000_0000_0000;
  }

  lemma ChainEndsInSeparator(names: seq<Bytes>)
    requires names != []
    ensures Chain(names) != [] && Chain(names)[|Chain(names)| - 1] == UNIT_SEPARATOR
    decreases |names|
  {
    if |names| > 1 {
      ChainEndsInSeparator(names[1..]);
    }
  }

  function SeparatorAt(s: Bytes): (i: nat)
    ensures i <= |s| && Free(s[..i], UNIT_SEPARATOR) && (i < |s| ==> s[i] == UNIT_SEPARATOR)
  {
    if s == [] || s[0] == UNIT_SEPARATOR then 0 else
      var i := SeparatorAt(s[1..]);
      assert s[..i + 1] == [s[0]] + s[1..][..i];
      i + 1
  }

  /** The names between the separators of a name. */
  function Pieces(name: Bytes): seq<Bytes> {
    var i := SeparatorAt(name);
    if i == |name| then [name] else [name[..i]] + Pieces(name[i + 1..])
  }

  function AllPieces(names: seq<Bytes>): seq<Bytes> {
    if names == [] then [] else Pieces(names[0]) + AllPieces(names[1..])
  }

  lemma {:induction false} PiecesSpell(name: Bytes)
    ensures AllFree(Pieces(name), UNIT_SEPARATOR) && Chain(Pieces(name)) == name + [UNIT_SEPARATOR]
    decreases |name|
  {
    hide Chain;
    var i := SeparatorAt(name);
    if i == |name| {
      assert name[..i] == name;
      ChainOfOne(name);
    } else {
      PiecesSpell(name[i + 1..]);
      OneMorePiece(name[..i], name[i + 1..], Pieces(name[i + 1..]));
      assert name == name[..i] + [UNIT_SEPARATOR] + name[i + 1..];
    }
  }

  lemma OneMorePiece(first: Bytes, tail: Bytes, pieces: seq<Bytes>)
    requires Free(first, UNIT_SEPARATOR) && AllFree(pieces, UNIT_SEPARATOR) && Chain(pieces) == tail + [UNIT_SEPARATOR]
    ensures AllFree([first] + pieces, UNIT_SEPARATOR)
    ensures Chain([first] + pieces) == (first + [UNIT_SEPARATOR] + tail) + [UNIT_SEPARATOR]
  {
    assert ([first] + pieces)[1..] == pieces;
    assert first + [UNIT_SEPARATOR] + (tail + [UNIT_SEPARATOR]) == (first + [UNIT_SEPARATOR] + tail) + [UNIT_SEPARATOR];
  }

  /** A chain is hashed as the chain of its names' pieces. */
  lemma {:induction false} AllPiecesSpell(names: seq<Bytes>)
    ensures AllFree(AllPieces(names), UNIT_SEPARATOR) && Chain(AllPieces(names)) == Chain(names)
  {
    if names != [] {
      PiecesSpell(names[0]);
      AllPiecesSpell(names[1..]);
      ChainOfConcat(Pieces(names[0]), AllPieces(names[1..]));
    }
  }

  lemma {:induction false} CleanNamesAreTheirPieces(names: seq<Bytes>)
    requires AllFree(names, UNIT_SEPARATOR)
    ensures AllPieces(names) == names
  {
    if names != [] {
      var i := SeparatorAt(names[0]);
      assert i == |names[0]|;
      CleanNamesAreTheirPieces(names[1..]);
    }
  }

  lemma SpelledByPieces(g: nat)
    requires 0 < g && TopByte(g) == UNIT_SEPARATOR
    ensures exists names :: AllFree(names, UNIT_SEPARATOR) && Chain(names) == Generation(g)
  {
    hide Chain, Pieces;
    var s := Generation(g);
    PiecesSpell(s[..8]);
    assert s == s[..8] + [UNIT_SEPARATOR];
  }

  lemma SpellersEndInSeparator(names: seq<Bytes>, g: nat)
    requires 0 < g && Chain(names) == Generation(g)
    ensures TopByte(g) == UNIT_SEPARATOR
  {
    ChainEndsInSeparator(names);
    assert Generation(g)[8] == TopByte(g);
  }

  /** A generation can be spelled by names without the unit separator exactly when its top byte is one. */
  lemma GenerationReadsAsNames(g: nat)
    requires 0 < g <= U64_MAX
    ensures (exists names :: AllFree(names, UNIT_SEPARATOR) && Chain(names) == Generation(g))
       <==> TopByte(g) == UNIT_SEPARATOR
  {
    hide Chain, Generation, TopByte, AllFree;
    if TopByte(g) == UNIT_SEPARATOR {
      SpelledByPieces(g);
    }
    forall names: seq<Bytes> | AllFree(names, UNIT_SEPARATOR) && Chain(names) == Generation(g)
      ensures TopByte(g) == UNIT_SEPARATOR
    {
      SpellersEndInSeparator(names, g);
    }
  }

  // --- Exactly when two framings coincide ------------------------------------------------------

  /** The names of c go on where d's stop, and spell d's generation. */
  ghost predicate Spells(c: seq<Bytes>, g: nat, d: seq<Bytes>, h: nat) {
    g == 0 && h > 0 && d <= c && Chain(c[|d|..]) == Generation(h)
  }

  ghost predicate SameFraming(c: seq<Bytes>, g: nat, d: seq<Bytes>, h: nat) {
    (c == d && g == h) || Spells(c, g, d, h) || Spells(d, h, c, g)
  }

  lemma {:induction false} ChainOfConcat(a: seq<Bytes>, b: seq<Bytes>)
    ensures Chain(a + b) == Chain(a) + Chain(b)
  {
    if a == [] {
      assert a + b == b;
    } else {
      assert (a + b)[1..] == a[1..] + b;
      ChainOfConcat(a[1..], b);
      assert (a[0] + [UNIT_SEPARATOR]) + (Chain(a[1..]) + Chain(b))
          == (a[0] + [UNIT_SEPARATOR] + Chain(a[1..])) + Chain(b);
    }
  }

  lemma SpellingCollides(c: seq<Bytes>, g: nat, d: seq<Bytes>, h: nat)
    requires Spells(c, g, d, h)
    ensures Chain(c) + Generation(g) == Chain(d) + Generation(h)
  {
    assert c == d + c[|d|..];
    ChainOfConcat(d, c[|d|..]);
    assert Chain(c) + Generation(0) == Chain(c);
  }

  /** Names after the last common one must be the whole of the other side's generation. */
  lemma LongerSpells(c: seq<Bytes>, g: nat, h: nat)
    requires c != [] && AllFree(c, UNIT_SEPARATOR) && Chain(c) + Generation(g) == Chain([]) + Generation(h)
    ensures Spells(c, g, [], h)
  {
    ChainEndsInSeparator(c);
    assert |Chain(c)| + |Generation(g)| == |Generation(h)|;
    assert Chain(c) + Generation(0) == Chain(c);
    assert c[0..] == c;
    assert Chain([]) + Generation(h) == Generation(h);
  }

  /** For names without the unit separator two framings coincide only if they have the same parts, or
      the names of one go on to spell the generation of the other. */
  lemma {:induction false} FramingsCoincide(c: seq<Bytes>, g: nat, d: seq<Bytes>, h: nat)
    requires AllFree(c, UNIT_SEPARATOR) && AllFree(d, UNIT_SEPARATOR) && g <= U64_MAX && h <= U64_MAX
    requires Chain(c) + Generation(g) == Chain(d) + Generation(h)
    ensures SameFraming(c, g, d, h)
  {
    hide Generation;
    if c == [] && d == [] {
      assert Chain(c) + Generation(g) == Generation(g) && Chain(d) + Generation(h) == Generation(h);
      GenerationInjective(g, h);
    } else if c != [] && d != [] {
      assert Chain(c) + Generation(g) == c[0] + [UNIT_SEPARATOR] + (Chain(c[1..]) + Generation(g));
      assert Chain(d) + Generation(h) == d[0] + [UNIT_SEPARATOR] + (Chain(d[1..]) + Generation(h));
      SplitAtSeparator(c[0], Chain(c[1..]) + Generation(g), d[0], Chain(d[1..]) + Generation(h), UNIT_SEPARATOR);
      FramingsCoincide(c[1..], g, d[1..], h);
      assert c == [c[0]] + c[1..] && d == [d[0]] + d[1..];
      assert |d| <= |c| ==> c[1..][|d[1..]|..] == c[|d|..];
      assert |c| <= |d| ==> d[1..][|c[1..]|..] == d[|c|..];
    } else if d == [] {
      LongerSpells(c, g, h);
    } else {
      LongerSpells(d, h, g);
    }
  }

  /** Spelling a generation takes a name with a record separator, and a generation ending in a unit
      separator. */
  lemma SpellingNeedsSeparators(c: seq<Bytes>, g: nat, d: seq<Bytes>, h: nat)
    requires Spells(c, g, d, h)
    ensures !AllFree(c, RECORD_SEPARATOR) && TopByte(h) == UNIT_SEPARATOR
  {
    var tail := c[|d|..];
    var s := Generation(h);
    assert |s| == 9 && s[0] == RECORD_SEPARATOR && s[8] == TopByte(h);
    ChainEndsInSeparator(tail);
    assert (tail[0] + [UNIT_SEPARATOR])[0] == RECORD_SEPARATOR;
    assert tail[0][0] == RECORD_SEPARATOR && c[|d|] == tail[0];
  }

  // --- Normalization keeps names clean ---------------------------------------------------------

  lemma NormalizeStaysClean(name: Bytes, b: Byte)
    requires Free(name, b) && b < 32
    ensures Free(Normalize(name), b)
  {
    var core := Trim(name, IsSpace);
    TrimStrips(name, IsSpace);
    var w, v :| name == w + core + v && All(w, IsSpace) && All(v, IsSpace);
    forall k | 0 <= k < |core| ensures core[k] != b {
      assert name[|w| + k] == core[k];
    }
  }

  lemma NormalizeAllStaysClean(chain: seq<Bytes>, b: Byte)
    requires AllFree(chain, b) && b < 32
    ensures AllFree(NormalizeAll(chain), b)
  {
    forall i | 0 <= i < |chain| ensures Free(NormalizeAll(chain)[i], b) {
      NormalizeStaysClean(chain[i], b);
    }
  }

  lemma {:induction false} PiecesStayClean(name: Bytes, b: Byte)
    requires Free(name, b)
    ensures AllFree(Pieces(name), b)
    decreases |name|
  {
    var i := SeparatorAt(name);
    if i < |name| {
      PiecesStayClean(name[i + 1..], b);
    }
  }

  lemma {:induction false} AllPiecesStayClean(names: seq<Bytes>, b: Byte)
    requires AllFree(names, b)
    ensures AllFree(AllPieces(names), b)
  {
    if names != [] {
      PiecesStayClean(names[0], b);
      AllPiecesStayClean(names[1..], b);
    }
  }

  /** Exactly when two keys of a namespace hash the same bytes: the same canonical JSON, and, after
      cutting every normalized name at its unit separators, the same names and generation or names that
      spell the other's generation. The serializer escapes control characters, so canonical JSON has
      no 0x1f. */
  lemma PreimagesCoincideExactly(json: Bytes, chain: seq<Bytes>, g: nat, json': Bytes, chain': seq<Bytes>, g': nat)
    requires Free(json, UNIT_SEPARATOR) && Free(json', UNIT_SEPARATOR) && g <= U64_MAX && g' <= U64_MAX
    ensures Preimage(json, chain, g) == Preimage(json', chain', g')
       <==> json == json' && SameFraming(AllPieces(NormalizeAll(chain)), g, AllPieces(NormalizeAll(chain')), g')
  {
    hide Spells, AllPieces;
    var c, c' := AllPieces(NormalizeAll(chain)), AllPieces(NormalizeAll(chain'));
    AllPiecesSpell(NormalizeAll(chain));
    AllPiecesSpell(NormalizeAll(chain'));
    if Preimage(json, chain, g) == Preimage(json', chain', g') {
      SplitAtSeparator(json, Chain(c) + Generation(g), json', Chain(c') + Generation(g'), UNIT_SEPARATOR);
      FramingsCoincide(c, g, c', g');
    }
    if Spells(c, g, c', g') {
      SpellingCollides(c, g, c', g');
    }
    if Spells(c', g', c, g) {
      SpellingCollides(c', g', c, g);
    }
  }

  /** What makes the framing unambiguous: no unit separator in a name, and no record separator either
      unless both generations are outside the range of TopByteIsUnitSeparator. */
  ghost predicate Framed(chain: seq<Bytes>, g: nat, chain': seq<Bytes>, g': nat) {
    && AllFree(chain, UNIT_SEPARATOR) && AllFree(chain', UNIT_SEPARATOR)
    && (|| (AllFree(chain, RECORD_SEPARATOR) && AllFree(chain', RECORD_SEPARATOR))
        || (TopByte(g) != UNIT_SEPARATOR && TopByte(g') != UNIT_SEPARATOR))
  }

  /** Then the hashed bytes determine the canonical JSON, the normalized chain and the generation: two
      keys of a namespace coincide exactly when all three do, for a hash without collisions. */
  lemma PreimageDeterminesParts(json: Bytes, chain: seq<Bytes>, g: nat, json': Bytes, chain': seq<Bytes>, g': nat)
    requires Free(json, UNIT_SEPARATOR) && Free(json', UNIT_SEPARATOR) && g <= U64_MAX && g' <= U64_MAX
    requires Framed(chain, g, chain', g')
    ensures Preimage(json, chain, g) == Preimage(json', chain', g')
       <==> json == json' && NormalizeAll(chain) == NormalizeAll(chain') && g == g'
    ensures Preimage(json, chain, g) == Preimage(json', chain', g')
       <==> json == json' && SameChain(chain, chain') && g == g'
  {
    hide Spells, Preimage, TopByte, SameChain;
    ChainsNormalizedAlike(chain, chain');
    var c, c' := NormalizeAll(chain), NormalizeAll(chain');
    PreimagesCoincideExactly(json, chain, g, json', chain', g');
    NormalizeAllStaysClean(chain, UNIT_SEPARATOR);
    NormalizeAllStaysClean(chain', UNIT_SEPARATOR);
    CleanNamesAreTheirPieces(c);
    CleanNamesAreTheirPieces(c');
    if AllFree(chain, RECORD_SEPARATOR) && AllFree(chain', RECORD_SEPARATOR) {
      NormalizeAllStaysClean(chain, RECORD_SEPARATOR);
      NormalizeAllStaysClean(chain', RECORD_SEPARATOR);
    }
    if Spells(c, g, c', g') {
      SpellingNeedsSeparators(c, g, c', g');
    }
    if Spells(c', g', c, g) {
      SpellingNeedsSeparators(c', g', c, g);
    }
  }

  /** Generation 0 adds no byte: the key of a never-purged scope is the legacy key. */
  lemma GenerationZeroIsLegacy(json: Bytes, chain: seq<Bytes>)
    ensures Preimage(json, chain, 0) == json + [UNIT_SEPARATOR] + Chain(NormalizeAll(chain))
  {
    assert Chain(NormalizeAll(chain)) + Generation(0) == Chain(NormalizeAll(chain));
  }

  const SPELLED: Bytes := [32, 79, 112, 101, 110, 65, 73, 32]
  const LOWERED: Bytes := [111, 112, 101, 110, 97, 105]

  lemma SpelledIsLowered()
    ensures Normalize(SPELLED) == LOWERED
  {
    hide Normalize;
    var core: Bytes, blank: Bytes := [79, 112, 101, 110, 65, 73], [32];
    assert SPELLED == blank + core + blank;
    assert Strips(SPELLED, core, Blank) by { StripsAround(blank, core, blank, Blank); }
    NormalizeStripsAndLowers(SPELLED, core);
  }

  /** One key's bytes written out: the chain " OpenAI " and again " OpenAI " read at generation 258. */
  lemma HashedBytes(json: Bytes)
    ensures Preimage(json, [SPELLED, SPELLED], 258) ==
            json + [31] + ([111, 112, 101, 110, 97, 105, 31, 111, 112, 101, 110, 97, 105, 31]
                           + [30, 2, 1, 0, 0, 0, 0, 0, 0])
  {
    hide Normalize;
    SpelledIsLowered();
    assert NormalizeAll([SPELLED, SPELLED]) == [LOWERED, LOWERED];
    ChainOfTwo(LOWERED, LOWERED);
    LittleEndianOf258();
  }

  lemma LittleEndianOf258()
    ensures LittleEndian(258, 8) == [2, 1, 0, 0, 0, 0, 0, 0]
  {
    assert LittleEndian(0, 2) == [0, 0];
    assert LittleEndian(0, 4) == [0, 0, 0, 0];
    assert LittleEndian(0, 6) == [0, 0, 0, 0, 0, 0];
    assert LittleEndian(1, 7) == [1, 0, 0, 0, 0, 0, 0];
  }

  /** The framing needs its hypothesis on names: one holding a unit separator reads as two names. */
  lemma UnitSeparatorInNameCollides(json: Bytes, a: Bytes, b: Bytes)
    requires Normalize(a + [UNIT_SEPARATOR] + b) == a + [UNIT_SEPARATOR] + b && Normalize(a) == a && Normalize(b) == b
    ensures Preimage(json, [a + [UNIT_SEPARATOR] + b], 0) == Preimage(json, [a, b], 0)
  {
    var long := a + [UNIT_SEPARATOR] + b;
    ChainOfOne(long);
    ChainOfTwo(a, b);
    assert NormalizeAll([long]) == [long] && NormalizeAll([a, b]) == [a, b];
    assert long + [UNIT_SEPARATOR] == a + [UNIT_SEPARATOR] + (b + [UNIT_SEPARATOR]);
  }

  /** One starting with a record separator reads as a generation whose top byte is a unit separator. */
  lemma RecordSeparatorInNameCollides(json: Bytes, name: Bytes, g: nat)
    requires 0 < g && TopByte(g) == UNIT_SEPARATOR && name == [RECORD_SEPARATOR] + LittleEndian(g, 8)[..7]
    requires Normalize(name) == name
    ensures Preimage(json, [name], 0) == Preimage(json, [], g)
  {
    ChainOfOne(name);
    assert NormalizeAll([name]) == [name] && NormalizeAll([]) == [];
    assert name + [UNIT_SEPARATOR] == [RECORD_SEPARATOR] + LittleEndian(g, 8);
    assert Chain([name]) + Generation(0) == Chain([]) + Generation(g);
  }

  lemma ChainOfOne(a: Bytes)
    ensures Chain([a]) == a + [UNIT_SEPARATOR]
  {
    var names: seq<Bytes> := [a];
    assert names[1..] == [];
  }

  lemma ChainOfTwo(a: Bytes, b: Bytes)
    ensures Chain([a, b]) == a + [UNIT_SEPARATOR] + (b + [UNIT_SEPARATOR])
  {
    var names: seq<Bytes> := [a, b];
    assert names[1..] == [b];
    ChainOfOne(b);
  }
}
