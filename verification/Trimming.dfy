/** `trim` over any kind of character, and what it leaves. */
module Trimming {

  function TrimStart<T>(s: seq<T>, space: T -> bool): seq<T> {
    if s != [] && space(s[0]) then TrimStart(s[1..], space) else s
  }

  function TrimEnd<T>(s: seq<T>, space: T -> bool): seq<T> {
    if s != [] && space(s[|s| - 1]) then TrimEnd(s[..|s| - 1], space) else s
  }

  function Trim<T>(s: seq<T>, space: T -> bool): seq<T> { TrimStart(TrimEnd(s, space), space) }

  ghost predicate All<T>(s: seq<T>, space: T -> bool) { forall i :: 0 <= i < |s| ==> space(s[i]) }

  /** `core` is `s` without the space around it: what goes on either side is all space, and `core` neither
      starts nor ends with any. */
  ghost predicate Strips<T(!new)>(s: seq<T>, core: seq<T>, space: T -> bool) {
    && (core != [] ==> !space(core[0]) && !space(core[|core| - 1]))
    && exists w, v :: s == w + core + v && All(w, space) && All(v, space)
  }

  lemma StripsAround<T(!new)>(w: seq<T>, core: seq<T>, v: seq<T>, space: T -> bool)
    requires All(w, space) && All(v, space)
    requires core != [] ==> !space(core[0]) && !space(core[|core| - 1])
    ensures Strips(w + core + v, core, space)
  {
  }

  lemma {:induction false} TrimStartStrips<T>(s: seq<T>, space: T -> bool) returns (w: seq<T>)
    ensures s == w + TrimStart(s, space) && All(w, space)
    ensures TrimStart(s, space) != [] ==> !space(TrimStart(s, space)[0])
  {
    w := [];
    if s != [] && space(s[0]) {
      var more := TrimStartStrips(s[1..], space);
      w := [s[0]] + more;
    }
  }

  lemma {:induction false} TrimEndStrips<T>(s: seq<T>, space: T -> bool) returns (v: seq<T>)
    ensures s == TrimEnd(s, space) + v && All(v, space)
    ensures TrimEnd(s, space) != [] ==> !space(TrimEnd(s, space)[|TrimEnd(s, space)| - 1])
  {
    v := [];
    if s != [] && space(s[|s| - 1]) {
      var more := TrimEndStrips(s[..|s| - 1], space);
      v := more + [s[|s| - 1]];
    }
  }

  lemma TrimStrips<T(!new)>(s: seq<T>, space: T -> bool)
    ensures Strips(s, Trim(s, space), space)
  {
    var t, core := TrimEnd(s, space), Trim(s, space);
    var v := TrimEndStrips(s, space);
    var w := TrimStartStrips(t, space);
    assert s == w + core + v;
    if core != [] {
      assert core[|core| - 1] == t[|t| - 1];
    }
  }

  /** Space in front ends before the first character that is none. */
  lemma SpaceStops<T>(s: seq<T>, w: seq<T>, k: nat, space: T -> bool)
    requires w <= s && All(w, space) && k < |s| && !space(s[k])
    ensures |w| <= k
  {
    assert forall i :: 0 <= i < |w| ==> s[i] == w[i];
  }

  lemma SpaceStarts<T>(s: seq<T>, v: seq<T>, k: nat, space: T -> bool)
    requires |v| <= |s| && s[|s| - |v|..] == v && All(v, space) && k < |s| && !space(s[k])
    ensures k < |s| - |v|
  {
    assert forall i :: |s| - |v| <= i < |s| ==> s[i] == v[i - (|s| - |v|)];
  }

  /** The space around one core reaches no further than into the space around another. */
  lemma CoreIsInside<T>(
    s: seq<T>, w: seq<T>, x: seq<T>, v: seq<T>, w': seq<T>, y: seq<T>, v': seq<T>, space: T -> bool)
    requires s == w + x + v == w' + y + v' && All(w', space) && All(v', space)
    requires x != [] && !space(x[0]) && !space(x[|x| - 1])
    ensures |w'| <= |w| && |v'| <= |v| && y != []
  {
    assert s[|w|] == x[0] && s[|w| + |x| - 1] == x[|x| - 1];
    assert w' == s[..|w'|] && v' == s[|s| - |v'|..];
    SpaceStops(s, w', |w|, space);
    SpaceStarts(s, v', |w| + |x| - 1, space);
  }

  /** There is only one way to strip. */
  lemma StripsOneWay<T(!new)>(s: seq<T>, x: seq<T>, y: seq<T>, space: T -> bool)
    requires Strips(s, x, space) && Strips(s, y, space)
    ensures x == y
  {
    var w, v :| s == w + x + v && All(w, space) && All(v, space);
    var w', v' :| s == w' + y + v' && All(w', space) && All(v', space);
    if x != [] {
      CoreIsInside(s, w, x, v, w', y, v', space);
    }
    if y != [] {
      CoreIsInside(s, w', y, v', w, x, v, space);
    }
    assert x == s[|w|..|s| - |v|] && y == s[|w'|..|s| - |v'|];
  }

  lemma SpaceAfterStrips<T(!new)>(s: seq<T>, more: seq<T>, x: seq<T>, space: T -> bool)
    requires Strips(s, x, space) && All(more, space)
    ensures Strips(s + more, x, space)
  {
    var w, v :| s == w + x + v && All(w, space) && All(v, space);
    assert s + more == w + x + (v + more) && All(v + more, space);
  }

  /** Space put behind changes nothing. */
  lemma MoreSpace<T(!new)>(s: seq<T>, more: seq<T>, x: seq<T>, space: T -> bool)
    requires All(more, space)
    ensures Strips(s, x, space) <==> Strips(s + more, x, space)
  {
    hide Strips, All, Trim;
    var core := Trim(s, space);
    TrimStrips(s, space);
    SpaceAfterStrips(s, more, core, space);
    if Strips(s, x, space) {
      StripsOneWay(s, x, core, space);
    }
    if Strips(s + more, x, space) {
      StripsOneWay(s + more, x, core, space);
    }
  }

  /** `trim` is that way, by any test that agrees with the one it uses. */
  lemma TrimIsStrip<T(!new)>(s: seq<T>, core: seq<T>, space: T -> bool, same: T -> bool)
    requires forall c :: space(c) == same(c)
    ensures Trim(s, space) == core <==> Strips(s, core, same)
  {
    TrimStrips(s, space);
    assert forall x: seq<T> :: All(x, space) == All(x, same);
    assert forall x :: Strips(s, x, space) == Strips(s, x, same);
    if Strips(s, core, same) {
      StripsOneWay(s, core, Trim(s, space), space);
    }
  }
}
