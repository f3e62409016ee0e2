/** The Verhoeff check digit: a loop over two tables, and why it detects the common typing errors. */
module Verhoeff {

  type Digit = d: nat | d < 10

  /** The multiplication table of the dihedral group of the pentagon. */
  const D: seq<seq<Digit>> := [
    [0, 1, 2, 3, 4, 5, 6, 7, 8, 9],
    [1, 2, 3, 4, 0, 6, 7, 8, 9, 5],
    [2, 3, 4, 0, 1, 7, 8, 9, 5, 6],
    [3, 4, 0, 1, 2, 8, 9, 5, 6, 7],
    [4, 0, 1, 2, 3, 9, 5, 6, 7, 8],
    [5, 9, 8, 7, 6, 0, 4, 3, 2, 1],
    [6, 5, 9, 8, 7, 1, 0, 4, 3, 2],
    [7, 6, 5, 9, 8, 2, 1, 0, 4, 3],
    [8, 7, 6, 5, 9, 3, 2, 1, 0, 4],
    [9, 8, 7, 6, 5, 4, 3, 2, 1, 0]]

  /** The permutation table: row `i` serves positions `i`, `i + 8`, `i + 16`, ... from the right. */
  const P: seq<seq<Digit>> := [
    [0, 1, 2, 3, 4, 5, 6, 7, 8, 9],
    [1, 5, 7, 6, 2, 8, 3, 0, 9, 4],
    [5, 8, 0, 3, 7, 9, 6, 1, 4, 2],
    [8, 9, 1, 6, 0, 4, 3, 5, 2, 7],
    [9, 4, 5, 3, 1, 2, 6, 8, 7, 0],
    [4, 2, 8, 6, 5, 7, 3, 9, 0, 1],
    [2, 7, 9, 3, 8, 0, 6, 4, 1, 5],
    [7, 0, 4, 6, 9, 1, 3, 2, 5, 8]]

  function Mul(a: Digit, b: Digit): Digit { D[a][b] }

  function Perm(i: nat, d: Digit): Digit { P[i % 8][d] }

  // --- The tables ------------------------------------------------------------------------------

  /** The remainder modulo 5 that the group law needs, for -4 <= n <= 8. */
  function Mod5(n: int): (r: Digit)
    requires -5 <= n < 10
    ensures r < 5 && (r == n || r == n + 5 || r == n - 5)
  {
    if n < 0 then n + 5 else if n < 5 then n else n - 5
  }

  /** The pentagon's symmetries: 0-4 are rotations, 5-9 reflections. */
  function Dihedral(a: Digit, b: Digit): Digit {
    if a < 5 && b < 5 then Mod5(a + b)
    else if a < 5 then 5 + Mod5(a + (b - 5))
    else if b < 5 then 5 + Mod5((a - 5) - b)
    else Mod5(a - b)
  }

  lemma RotationRows(a: Digit, b: Digit)
    requires a < 5
    ensures Mul(a, b) == Dihedral(a, b)
  {
    if a == 0 {} else if a == 1 {} else if a == 2 {} else if a == 3 {} else {}
  }

  lemma ReflectionRows(a: Digit, b: Digit)
    requires a >= 5
    ensures Mul(a, b) == Dihedral(a, b)
  {
    if a == 5 {} else if a == 6 {} else if a == 7 {} else if a == 8 {} else {}
  }

  lemma MulIsDihedral(a: Digit, b: Digit)
    ensures Mul(a, b) == Dihedral(a, b)
  {
    if a < 5 {
      RotationRows(a, b);
    } else {
      ReflectionRows(a, b);
    }
  }

  lemma DihedralAssociates(a: Digit, b: Digit, c: Digit)
    ensures Dihedral(Dihedral(a, b), c) == Dihedral(a, Dihedral(b, c))
  {
  }

  lemma MulAssociates(a: Digit, b: Digit, c: Digit)
    ensures Mul(Mul(a, b), c) == Mul(a, Mul(b, c))
  {
    hide Mul, Perm;
    MulIsDihedral(a, b);
    MulIsDihedral(b, c);
    MulIsDihedral(Mul(a, b), c);
    MulIsDihedral(a, Mul(b, c));
    DihedralAssociates(a, b, c);
  }

  lemma MulCancels(a: Digit, b: Digit, c: Digit)
    ensures Mul(a, b) == Mul(a, c) ==> b == c
    ensures Mul(b, a) == Mul(c, a) ==> b == c
  {
    hide Mul;
    MulIsDihedral(a, b);
    MulIsDihedral(a, c);
    MulIsDihedral(b, a);
    MulIsDihedral(c, a);
  }

  /** Reflections undo themselves; a rotation is undone by its opposite. */
  function Inverse(a: Digit): (r: Digit)
    ensures Mul(r, a) == 0
  {
    var r := if 0 < a < 5 then 5 - a else a;
    MulIsDihedral(r, a);
    r
  }

  lemma IdentityIsNeutral(a: Digit)
    ensures Mul(0, a) == a && Mul(a, 0) == a
  {
    hide Mul;
    MulIsDihedral(0, a);
    MulIsDihedral(a, 0);
  }

  /** Every row of the permutation table is the one before it, permuted once more; the eighth step is
      back at the identity, so the rows may be taken modulo 8. */
  lemma PermSteps(i: nat, d: Digit)
    ensures Perm(0, d) == d && Perm(i + 1, d) == Perm(1, Perm(i, d))
  {
    if i % 8 == 7 {
      assert (i + 1) % 8 == 0;
    } else {
      assert (i + 1) % 8 == i % 8 + 1;
    }
    RowSteps(i % 8, d);
  }

  lemma RowSteps(row: nat, d: Digit)
    requires row < 8
    ensures P[(row + 1) % 8][d] == P[1][P[row][d]]
  {
    if row == 0 {} else if row == 1 {} else if row == 2 {} else if row == 3 {}
    else if row == 4 {} else if row == 5 {} else if row == 6 {} else {}
  }

  /** Row 1 spelled out. */
  function Step(d: Digit): Digit {
    match d
    case 0 => 1 case 1 => 5 case 2 => 7 case 3 => 6 case 4 => 2
    case 5 => 8 case 6 => 3 case 7 => 0 case 8 => 9 case _ => 4
  }

  lemma PermOneIsStep(d: Digit)
    ensures Perm(1, d) == Step(d)
  {
  }

  lemma {:induction false} PermIsInjective(i: nat, a: Digit, b: Digit)
    ensures Perm(i, a) == Perm(i, b) ==> a == b
  {
    hide Mul, Perm;
    if i == 0 {
      PermSteps(0, a);
      PermSteps(0, b);
    } else {
      PermSteps(i - 1, a);
      PermSteps(i - 1, b);
      PermOneIsStep(Perm(i - 1, a));
      PermOneIsStep(Perm(i - 1, b));
      PermIsInjective(i - 1, a, b);
    }
  }

  lemma DihedralSeparates(a: Digit, b: Digit)
    requires a != b
    ensures Dihedral(a, Step(b)) != Dihedral(b, Step(a))
  {
    if a == 0 {} else if a == 1 {} else if a == 2 {} else if a == 3 {} else if a == 4 {}
    else if a == 5 {} else if a == 6 {} else if a == 7 {} else if a == 8 {} else {}
  }

  /** The property the permutation was chosen for: it separates a pair from the swapped pair. */
  lemma StepSeparatesSwaps(a: Digit, b: Digit)
    requires a != b
    ensures Mul(a, Perm(1, b)) != Mul(b, Perm(1, a))
  {
    hide Mul, Perm;
    MulIsDihedral(a, Perm(1, b));
    MulIsDihedral(b, Perm(1, a));
    PermOneIsStep(a);
    PermOneIsStep(b);
    DihedralSeparates(a, b);
  }

  // --- The checksum ----------------------------------------------------------------------------

  /** The product over `digits`, the rightmost of which stands at position `offset`. */
  function Product(digits: seq<Digit>, offset: nat): Digit {
    if digits == [] then 0
    else Mul(Product(digits[1..], offset), Perm(offset + |digits| - 1, digits[0]))
  }

  ghost predicate Valid(digits: seq<Digit>) { digits != [] && Product(digits, 0) == 0 }

  /** Accepts exactly the non-empty digit strings whose product is the identity; any byte above 9
      makes the answer no, wherever it stands. */
  method Validate(digits: seq<nat>) returns (ok: bool)
    ensures ok <==> (forall k :: 0 <= k < |digits| ==> digits[k] <= 9) && Valid(digits)
  {
    if digits == [] {
      return false;
    }
    var c: Digit := 0;
    for i := 0 to |digits|
      invariant forall k :: |digits| - i <= k < |digits| ==> digits[k] <= 9
      invariant c == Product(digits[|digits| - i..], 0)
    {
      var d := digits[|digits| - 1 - i];
      if d > 9 {
        return false;
      }
      c := D[c][P[i % 8][d]];
    }
    ok := c == 0;
  }

  lemma {:induction false} ProductOfConcat(a: seq<Digit>, b: seq<Digit>, offset: nat)
    ensures Product(a + b, offset) == Mul(Product(b, offset), Product(a, offset + |b|))
  {
    hide Mul, Perm;
    if a == [] {
      assert a + b == b;
      IdentityIsNeutral(Product(b, offset));
    } else {
      assert (a + b)[1..] == a[1..] + b;
      ProductOfConcat(a[1..], b, offset);
      MulAssociates(Product(b, offset), Product(a[1..], offset + |b|), Perm(offset + |b| + |a| - 1, a[0]));
    }
  }

  /** Changing what stands to the left never hides a difference on the right. */
  lemma LeftPartCancels(a: seq<Digit>, s: seq<Digit>, t: seq<Digit>)
    requires |s| == |t| && Product(s, 0) != Product(t, 0)
    ensures Product(a + s, 0) != Product(a + t, 0)
  {
    hide Mul, Perm;
    ProductOfConcat(a, s, 0);
    ProductOfConcat(a, t, 0);
    MulCancels(Product(a, |s|), Product(s, 0), Product(t, 0));
  }

  /** One wrong digit anywhere, in a string of any length, is detected. */
  lemma SingleErrorIsDetected(a: seq<Digit>, x: Digit, y: Digit, b: seq<Digit>)
    requires x != y && Valid(a + [x] + b)
    ensures !Valid(a + [y] + b)
  {
    hide Mul, Perm;
    var s, t := [x] + b, [y] + b;
    assert s[1..] == b && t[1..] == b;
    PermIsInjective(|b|, x, y);
    MulCancels(Product(b, 0), Perm(|b|, x), Perm(|b|, y));
    assert a + [x] + b == a + s && a + [y] + b == a + t;
    LeftPartCancels(a, s, t);
  }

  /** Swapping two different neighbours, in a string of any length, is detected. */
  lemma SwapIsDetected(a: seq<Digit>, x: Digit, y: Digit, b: seq<Digit>)
    requires x != y && Valid(a + [x, y] + b)
    ensures !Valid(a + [y, x] + b)
  {
    hide Mul, Perm;
    PairProduct(x, y, b);
    PairProduct(y, x, b);
    var i, c := |b|, Product(b, 0);
    var u, v := Perm(i, x), Perm(i, y);
    PermIsInjective(i, x, y);
    StepSeparatesSwaps(v, u);
    MulCancels(c, Mul(v, Perm(1, u)), Mul(u, Perm(1, v)));
    var s, t := [x, y] + b, [y, x] + b;
    assert a + [x, y] + b == a + s && a + [y, x] + b == a + t;
    LeftPartCancels(a, s, t);
  }

  lemma PairProduct(x: Digit, y: Digit, b: seq<Digit>)
    ensures Product([x, y] + b, 0) == Mul(Product(b, 0), Mul(Perm(|b|, y), Perm(1, Perm(|b|, x))))
  {
    hide Mul, Perm;
    var s := [x, y] + b;
    assert s[1..] == [y] + b && s[1..][1..] == b;
    PermSteps(|b|, x);
    MulAssociates(Product(b, 0), Perm(|b|, y), Perm(|b| + 1, x));
  }

  function CheckDigit(payload: seq<Digit>): Digit { Inverse(Product(payload, 1)) }

  /** Every payload, the empty one included, has exactly one check digit. */
  lemma CheckDigitIsUnique(payload: seq<Digit>, d: Digit)
    ensures Valid(payload + [d]) <==> d == CheckDigit(payload)
  {
    hide Mul, Perm;
    ProductOfConcat(payload, [d], 0);
    assert [d][1..] == [];
    PermSteps(0, d);
    IdentityIsNeutral(d);
    assert Product([d], 0) == d;
    MulCancels(Product(payload, 1), d, CheckDigit(payload));
  }
}
