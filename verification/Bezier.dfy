/** Bezier curves over the reals. A point stands for one coordinate: every operation acts on coordinates
    separately. */
module Bezier {

  // ---- De Casteljau evaluation ----

  function Lerp(a: real, b: real, t: real): real { (1.0 - t) * a + t * b }

  /** The stateless recursive interpolation. */
  function DeCasteljau(r: nat, i: nat, t: real, pts: seq<real>): real
    requires i + r < |pts|
    decreases r
  {
    if r == 0 then pts[i]
    else DeCasteljau(r - 1, i, t, pts) * (1.0 - t) + DeCasteljau(r - 1, i + 1, t, pts) * t
  }

  /** The point of the curve at parameter `t`. */
  function Curve(pts: seq<real>, t: real): real
    requires pts != []
  {
    DeCasteljau(|pts| - 1, 0, t, pts)
  }

  /** One row of the triangular scheme: neighbours are interpolated. */
  function Level(pts: seq<real>, t: real): (r: seq<real>)
    requires pts != []
    ensures |r| == |pts| - 1
  {
    seq(|pts| - 1, i requires 0 <= i < |pts| - 1 => Lerp(pts[i], pts[i + 1], t))
  }

  ghost function Levels(pts: seq<real>, t: real, k: nat): (r: seq<real>)
    requires k < |pts|
    ensures |r| == |pts| - k
  {
    if k == 0 then pts else Level(Levels(pts, t, k - 1), t)
  }

  lemma {:induction false} RowsOfTriangle(pts: seq<real>, t: real, r: nat, i: nat)
    requires i + r < |pts|
    ensures DeCasteljau(r, i, t, pts) == Levels(pts, t, r)[i]
    decreases r
  {
    if r > 0 {
      RowsOfTriangle(pts, t, r - 1, i);
      RowsOfTriangle(pts, t, r - 1, i + 1);
    }
  }

  lemma {:induction false} LevelsShift(pts: seq<real>, t: real, k: nat)
    requires k + 1 < |pts|
    ensures Levels(pts, t, k + 1) == Levels(Level(pts, t), t, k)
  {
    if k > 0 {
      LevelsShift(pts, t, k - 1);
    }
  }

  /** Evaluating after one row is evaluating the curve. */
  lemma CurveOfLevel(pts: seq<real>, t: real)
    requires |pts| >= 2
    ensures Curve(pts, t) == Curve(Level(pts, t), t)
  {
    var n := |pts| - 1;
    RowsOfTriangle(pts, t, n, 0);
    LevelsShift(pts, t, n - 1);
    RowsOfTriangle(Level(pts, t), t, n - 1, 0);
  }

  /** The curve runs from the first control point to the last, and a single control point stays where it is. */
  lemma {:induction false} CurveEnds(pts: seq<real>)
    requires pts != []
    ensures Curve(pts, 0.0) == pts[0] && Curve(pts, 1.0) == pts[|pts| - 1]
    decreases |pts|
  {
    if |pts| > 1 {
      CurveOfLevel(pts, 0.0);
      CurveOfLevel(pts, 1.0);
      CurveEnds(Level(pts, 0.0));
      CurveEnds(Level(pts, 1.0));
    }
  }

  /** Two control points make the straight line between them. */
  lemma CurveOfTwo(a: real, b: real, t: real)
    ensures Curve([a, b], t) == a + t * (b - a)
  {
    assert DeCasteljau(0, 0, t, [a, b]) == a && DeCasteljau(0, 1, t, [a, b]) == b;
  }

  /** Interpolating twice gives the same in either order. */
  lemma LerpSwap(a: real, b: real, c: real, u: real, v: real)
    ensures Lerp(Lerp(a, b, u), Lerp(b, c, u), v) == Lerp(Lerp(a, b, v), Lerp(b, c, v), u)
  {
    LerpTwice(a, b, c, u, v);
    LerpTwice(a, b, c, v, u);
    assert u * v == v * u;
  }

  lemma LerpTwice(a: real, b: real, c: real, u: real, v: real)
    ensures Lerp(Lerp(a, b, u), Lerp(b, c, u), v) == a + (u + v) * (b - a) + (u * v) * (a - b - b + c)
  {
  }

  lemma LevelSwap(pts: seq<real>, u: real, v: real)
    requires |pts| >= 2
    ensures Level(Level(pts, u), v) == Level(Level(pts, v), u)
  {
    forall i | 0 <= i < |pts| - 2 ensures Level(Level(pts, u), v)[i] == Level(Level(pts, v), u)[i] {
      LerpSwap(pts[i], pts[i + 1], pts[i + 2], u, v);
    }
  }

  lemma {:induction false} LevelsSwap(pts: seq<real>, t: real, u: real, k: nat)
    requires k + 1 < |pts|
    ensures Level(Levels(pts, t, k), u) == Levels(Level(pts, u), t, k)
  {
    if k > 0 {
      LevelsSwap(pts, t, u, k - 1);
      LevelSwap(Levels(pts, t, k - 1), t, u);
    }
  }

  // ---- Splitting ----

  /** The left edge of the triangle. */
  ghost function LeftOf(pts: seq<real>, t: real): (r: seq<real>)
    ensures |r| == |pts|
  {
    seq(|pts|, k requires 0 <= k < |pts| => Levels(pts, t, k)[0])
  }

  /** The right edge of the triangle, in reverse order. */
  ghost function RightOf(pts: seq<real>, t: real): (r: seq<real>)
    ensures |r| == |pts|
  {
    seq(|pts|, k requires 0 <= k < |pts| => Levels(pts, t, |pts| - 1 - k)[k])
  }

  lemma LeftLerp(a: real, b: real, t: real, s: real)
    ensures Lerp(a, Lerp(a, b, t), s) == Lerp(a, b, t * s)
  {
    assert Lerp(a, b, t) == a + t * (b - a);
    assert s * (t * (b - a)) == (t * s) * (b - a);
  }

  lemma RightLerp(a: real, b: real, t: real, s: real)
    ensures Lerp(Lerp(a, b, t), b, s) == Lerp(a, b, t + (1.0 - t) * s)
  {
    assert Lerp(a, b, t) == b - (1.0 - t) * (b - a);
    assert (1.0 - s) * ((1.0 - t) * (b - a)) == ((1.0 - s) * (1.0 - t)) * (b - a);
  }

  lemma LeftEntry(pts: seq<real>, t: real, k: nat)
    requires k < |pts|
    ensures LeftOf(pts, t)[k] == Levels(pts, t, k)[0]
    ensures k + 1 < |pts| ==> LeftOf(pts, t)[k + 1] == Lerp(Levels(pts, t, k)[0], Levels(pts, t, k)[1], t)
  {
    hide Lerp;
    if k + 1 < |pts| {
      assert Levels(pts, t, k + 1) == Level(Levels(pts, t, k), t);
    }
  }

  /** A row over the left control points is the left control points of a row. */
  lemma LevelOfLeft(pts: seq<real>, t: real, s: real)
    requires |pts| >= 2
    ensures Level(LeftOf(pts, t), s) == LeftOf(Level(pts, t * s), t)
  {
    var w := t * s;
    hide Lerp, Levels, LeftOf;
    forall k | 0 <= k < |pts| - 1 ensures Level(LeftOf(pts, t), s)[k] == LeftOf(Level(pts, w), t)[k] {
      var q := Levels(pts, t, k);
      LeftEntry(pts, t, k);
      LeftLerp(q[0], q[1], t, s);
      LevelsSwap(pts, t, w, k);
      LeftEntry(Level(pts, w), t, k);
    }
  }

  lemma RightEntry(pts: seq<real>, t: real, k: nat)
    requires k < |pts|
    ensures RightOf(pts, t)[k] == Levels(pts, t, |pts| - 1 - k)[k]
    ensures k + 1 < |pts| ==>
      var q := Levels(pts, t, |pts| - 2 - k);
      RightOf(pts, t)[k] == Lerp(q[k], q[k + 1], t) && RightOf(pts, t)[k + 1] == q[k + 1]
  {
    hide Lerp;
    if k + 1 < |pts| {
      var j := |pts| - 2 - k;
      assert Levels(pts, t, j + 1) == Level(Levels(pts, t, j), t);
    }
  }

  lemma LevelOfRight(pts: seq<real>, t: real, s: real)
    requires |pts| >= 2
    ensures Level(RightOf(pts, t), s) == RightOf(Level(pts, t + (1.0 - t) * s), t)
  {
    var w := t + (1.0 - t) * s;
    hide Lerp, Levels, RightOf;
    forall k | 0 <= k < |pts| - 1 ensures Level(RightOf(pts, t), s)[k] == RightOf(Level(pts, w), t)[k] {
      var j := |pts| - 2 - k;
      var q := Levels(pts, t, j);
      RightEntry(pts, t, k);
      RightLerp(q[k], q[k + 1], t, s);
      LevelsSwap(pts, t, w, j);
      RightEntry(Level(pts, w), t, k);
    }
  }

  /** The left half runs along the original curve from its start to the split. */
  lemma {:induction false} LeftPreserves(pts: seq<real>, t: real, s: real)
    requires pts != []
    ensures Curve(LeftOf(pts, t), s) == Curve(pts, t * s)
    decreases |pts|
  {
    if |pts| == 1 {
      assert LeftOf(pts, t) == pts;
    } else {
      CurveOfLevel(LeftOf(pts, t), s);
      LevelOfLeft(pts, t, s);
      LeftPreserves(Level(pts, t * s), t, s);
      CurveOfLevel(pts, t * s);
    }
  }

  /** The right half runs along the original curve from the split to its end. */
  lemma {:induction false} RightPreserves(pts: seq<real>, t: real, s: real)
    requires pts != []
    ensures Curve(RightOf(pts, t), s) == Curve(pts, t + (1.0 - t) * s)
    decreases |pts|
  {
    if |pts| == 1 {
      assert RightOf(pts, t)[0] == Levels(pts, t, 0)[0];
      assert RightOf(pts, t) == pts;
    } else {
      var w := t + (1.0 - t) * s;
      CurveOfLevel(RightOf(pts, t), s);
      LevelOfRight(pts, t, s);
      RightPreserves(Level(pts, w), t, s);
      CurveOfLevel(pts, w);
    }
  }

  method LerpRow(points: seq<real>, param: real) returns (lerps: seq<real>)
    requires points != []
    ensures lerps == Level(points, param)
  {
    lerps := [];
    for i := 0 to |points| - 1
      invariant |lerps| == i && forall k :: 0 <= k < i ==> lerps[k] == Lerp(points[k], points[k + 1], param)
    {
      lerps := lerps + [Lerp(points[i], points[i + 1], param)];
    }
  }

  /** Fills both edges of the triangle from level `level` down. */
  method SplitFrom(points: seq<real>, left: array<real>, right: array<real>, level: nat, param: real)
    requires points != [] && left != right && left.Length == right.Length == |points| + level
    modifies left, right
    ensures left[..level] == old(left[..level]) && right[|points|..] == old(right[|points|..])
    ensures left[level..] == LeftOf(points, param) && right[..|points|] == RightOf(points, param)
    decreases |points|
  {
    var n := |points|;
    left[level] := points[0];
    right[n - 1] := points[n - 1];
    if n > 1 {
      var lerps := LerpRow(points, param);
      ghost var l, r := left[..level + 1], right[n - 1..];
      SplitFrom(lerps, left, right, level + 1, param);
      EdgesDown(points, param);
      assert left[..level + 1] == l && right[n - 1..] == r;
      assert left[level..] == [left[level]] + left[level + 1..];
      assert right[..n] == right[..n - 1] + [right[n - 1]];
      assert left[..level] == l[..level] && right[n..] == r[1..];
    }
  }

  lemma EdgesDown(pts: seq<real>, t: real)
    requires |pts| >= 2
    ensures LeftOf(pts, t) == [pts[0]] + LeftOf(Level(pts, t), t)
    ensures RightOf(pts, t) == RightOf(Level(pts, t), t) + [pts[|pts| - 1]]
  {
    forall k | 0 < k < |pts| ensures Levels(pts, t, k) == Levels(Level(pts, t), t, k - 1) {
      LevelsShift(pts, t, k - 1);
    }
  }

  /** Splits a curve at `param`: the two halves are the two stretches of the original curve. */
  method Split(points: seq<real>, param: real) returns (left: array<real>, right: array<real>)
    requires points != []
    ensures left.Length == right.Length == |points|
    ensures forall s :: Curve(left[..], s) == Curve(points, param * s)
    ensures forall s :: Curve(right[..], s) == Curve(points, param + (1.0 - param) * s)
  {
    left, right := new real[|points|], new real[|points|];
    SplitFrom(points, left, right, 0, param);
    assert left[0..] == left[..] && right[..|points|] == right[..];
    forall s ensures Curve(left[..], s) == Curve(points, param * s) { LeftPreserves(points, param, s); }
    forall s ensures Curve(right[..], s) == Curve(points, param + (1.0 - param) * s) {
      RightPreserves(points, param, s);
    }
  }
}
