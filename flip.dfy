/**
 * The gamma flip point of gamma.py:185-196: the first pair of neighbouring
 * levels where the sign of the total-gamma curve changes, and the level
 * where the straight line between those two points crosses zero.
 */
module Flip {
  import opened Common
  import opened Failures

  /** `np.sign`: zero is a sign of its own. */
  function Sign(x: real): (s: int)
    ensures s == 1 <==> x > 0.0
    ensures s == -1 <==> x < 0.0
    ensures s == 0 <==> x == 0.0
  {
    if x > 0.0 then 1 else if x < 0.0 then -1 else 0
  }

  /** Index i is where `np.diff(np.sign(g))` is nonzero. */
  predicate SignChange(g: seq<real>, i: int) {
    0 <= i < |g| - 1 && Sign(g[i]) != Sign(g[i + 1])
  }

  /** The indices from i on where the sign changes, ascending. */
  function CrossingsFrom(g: seq<real>, i: nat): (c: seq<nat>)
    requires i <= |g|
    ensures forall j :: j in c <==> i <= j && SignChange(g, j)
    ensures forall a, b :: 0 <= a < b < |c| ==> c[a] < c[b]
    ensures |c| > 0 ==> forall j :: i <= j < c[0] ==> !SignChange(g, j)
    decreases |g| - i
  {
    if i + 1 >= |g| then []
    else
      var rest := CrossingsFrom(g, i + 1);
      if Sign(g[i]) != Sign(g[i + 1]) then
        var c := [i] + rest;
        assert forall k :: 0 < k < |c| ==> c[k] == rest[k - 1] && rest[k - 1] in rest;
        c
      else rest
  }

  /** `np.where(np.diff(np.sign(g)))[0]`: every index where the sign changes, in order. */
  function ZeroCrossIdx(g: seq<real>): (c: seq<nat>)
    ensures forall j :: j in c <==> SignChange(g, j)
    ensures forall a, b :: 0 <= a < b < |c| ==> c[a] < c[b]
    ensures |c| > 0 ==> forall j :: 0 <= j < c[0] ==> !SignChange(g, j)
  {
    CrossingsFrom(g, 0)
  }

  /**
   * `zeroGamma[0]`: interpolate between the two levels around the first sign
   * change; with no sign change the indexing fails, which is NoGammaFlip.
   */
  function ZeroGamma(levels: seq<real>, g: seq<real>): (r: Result<real, ScriptError>)
    requires |levels| == |g|
    ensures r.Err? <==> forall j :: !SignChange(g, j)
    ensures r.Err? ==> r.error == NoGammaFlip
  {
    var idx := ZeroCrossIdx(g);
    if idx == [] then
      Err(NoGammaFlip)
    else
      assert idx[0] in idx;
      var i := idx[0];
      var negStrike, posStrike := levels[i], levels[i + 1];
      var negGamma, posGamma := g[i], g[i + 1];
      Ok(Chord(negStrike, posStrike, negGamma, posGamma))
  }

  /**
   * gamma.py:195: the level where the chord from (x0, a) to (x1, b) is zero;
   * an end where the profile is exactly zero is that end's level.
   */
  function Chord(x0: real, x1: real, a: real, b: real): (z: real)
    requires Sign(a) != Sign(b)
    ensures b == 0.0 ==> z == x1
    ensures a == 0.0 ==> z == x0
  {
    ChordWeight(a, b);
    x1 - (x1 - x0) * b / (b - a)
  }

  /** The index ZeroGamma interpolates at is the first sign change. */
  lemma FirstCrossing(g: seq<real>)
    requires exists j :: SignChange(g, j)
    ensures ZeroCrossIdx(g) != []
    ensures SignChange(g, ZeroCrossIdx(g)[0])
    ensures forall j :: 0 <= j < ZeroCrossIdx(g)[0] ==> !SignChange(g, j)
  {
    var idx := ZeroCrossIdx(g);
    var w :| SignChange(g, w);
    assert w in idx;
    assert idx[0] in idx;
  }

  /**
   * Linear interpolation between (x0, a) and (x1, b), two points whose signs
   * differ: the result is where the chord through them is zero, and it lies
   * between x0 and x1.
   */
  predicate ZeroOfChord(x0: real, x1: real, a: real, b: real, z: real) {
    && a * (x1 - z) + b * (z - x0) == 0.0
    && (x0 <= x1 ==> x0 <= z <= x1)
  }

  lemma ChordZero(x0: real, x1: real, a: real, b: real)
    requires Sign(a) != Sign(b)
    ensures ZeroOfChord(x0, x1, a, b, Chord(x0, x1, a, b))
  {
    var t := b / (b - a);
    ChordWeight(a, b);
    var w := x1 - x0;
    var z := Chord(x0, x1, a, b);
    ScaledQuotient(w, b, b - a);
    assert x1 - z == w * t;
    assert z - x0 == w - w * t;
    ChordIdentity(a, b, w, t);
    if x0 <= x1 {
      NonNegativeProduct(w, t);
      NonNegativeProduct(w, 1.0 - t);
      assert w * (1.0 - t) == w - w * t;
    }
  }

  /** The share of the step from a to b that lies on b's side of zero. */
  lemma ChordWeight(a: real, b: real)
    requires Sign(a) != Sign(b)
    ensures b - a != 0.0
    ensures b / (b - a) * (b - a) == b
    ensures 0.0 <= b / (b - a) <= 1.0
  {
    if b > a {
      assert 0.0 <= b <= b - a;
    } else {
      assert b - a < 0.0 && b - a <= b <= 0.0;
    }
  }

  lemma ScaledQuotient(w: real, b: real, d: real)
    requires d != 0.0
    ensures w * b / d == w * (b / d)
  {
  }

  lemma ChordIdentity(a: real, b: real, w: real, t: real)
    requires t * (b - a) == b
    ensures a * (w * t) + b * (w - w * t) == 0.0
  {
    assert a * (w * t) + b * (w - w * t) == w * (b - t * (b - a));
  }

  lemma NonNegativeProduct(x: real, y: real)
    requires x >= 0.0 && y >= 0.0
    ensures x * y >= 0.0
  {
  }

  /** ZeroGamma is the chord across the first sign change. */
  lemma ZeroGammaAt(levels: seq<real>, g: seq<real>)
    requires |levels| == |g|
    requires ZeroGamma(levels, g).Ok?
    ensures ZeroCrossIdx(g) != [] && SignChange(g, ZeroCrossIdx(g)[0])
    ensures var i := ZeroCrossIdx(g)[0];
      ZeroGamma(levels, g).value == Chord(levels[i], levels[i + 1], g[i], g[i + 1])
  {
    FirstCrossing(g);
  }

  /**
   * The flip point is the zero of the chord across the first sign change of
   * the curve; on ascending levels it lies between those two levels.
   */
  lemma ZeroGammaSpec(levels: seq<real>, g: seq<real>)
    requires |levels| == |g|
    requires ZeroGamma(levels, g).Ok?
    ensures ZeroCrossIdx(g) != []
    ensures var i, z := ZeroCrossIdx(g)[0], ZeroGamma(levels, g).value;
      && SignChange(g, i)
      && (forall j :: 0 <= j < i ==> !SignChange(g, j))
      && ZeroOfChord(levels[i], levels[i + 1], g[i], g[i + 1], z)
  {
    ZeroGammaAt(levels, g);
    var i := ZeroCrossIdx(g)[0];
    var x0, x1, a, b := levels[i], levels[i + 1], g[i], g[i + 1];
    ChordZero(x0, x1, a, b);
  }

  /** From -5 at 100 to 3 at 110 the chord crosses zero at 106.25. */
  lemma FlipExample()
    ensures ZeroGamma([100.0, 110.0], [-5.0, 3.0]) == Ok(106.25)
  {
    assert SignChange([-5.0, 3.0], 0);
    FirstCrossing([-5.0, 3.0]);
  }

  /** A curve that touches zero and stays there still has a sign change where it reaches zero. */
  lemma TouchZeroExample()
    ensures ZeroGamma([100.0, 110.0, 120.0], [2.0, 0.0, 0.0]) == Ok(110.0)
  {
    assert SignChange([2.0, 0.0, 0.0], 0);
    FirstCrossing([2.0, 0.0, 0.0]);
  }

  /** A curve of one sign throughout has no flip point. */
  lemma NoFlipExample()
    ensures ZeroGamma([100.0, 110.0], [1.0, 3.0]) == Err(NoGammaFlip)
  {
  }
}
