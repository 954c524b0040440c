/**
 * Deriving the tile descriptor from a sprite's UVs (Assets/TileMeshPaint.cs, SetTile).
 */
module Tiles {
  import opened Geometry
  import opened UVProjector

  /** A sprite of the atlas, known by the UV coordinates of its outline vertices. */
  datatype Sprite = Sprite(uv: seq<Vec2>)

  /** A float running minimum or maximum: it starts at an infinity and becomes finite at the first value. */
  datatype Bound = NegInfinity | Finite(value: real) | PosInfinity

  predicate Below(a: Bound, b: Bound)
  {
    match (a, b)
    case (NegInfinity, NegInfinity) => false
    case (NegInfinity, _) => true
    case (Finite(x), Finite(y)) => x < y
    case (Finite(_), PosInfinity) => true
    case _ => false
  }

  function Xs(uv: seq<Vec2>): (r: seq<real>)
    ensures |r| == |uv| && forall k :: 0 <= k < |uv| ==> r[k] == uv[k].x
  {
    seq(|uv|, k requires 0 <= k < |uv| => uv[k].x)
  }

  function Ys(uv: seq<Vec2>): (r: seq<real>)
    ensures |r| == |uv| && forall k :: 0 <= k < |uv| ==> r[k] == uv[k].y
  {
    seq(|uv|, k requires 0 <= k < |uv| => uv[k].y)
  }

  /** The least element, as kept by a scan that replaces it only on a strictly smaller value. */
  function Min(xs: seq<real>): (m: real)
    requires |xs| > 0
    ensures exists k :: 0 <= k < |xs| && xs[k] == m
    ensures forall k :: 0 <= k < |xs| ==> m <= xs[k]
  {
    if |xs| == 1 then xs[0]
    else
      var m := Min(xs[..|xs| - 1]);
      if xs[|xs| - 1] < m then xs[|xs| - 1] else m
  }

  /** The greatest element, as kept by a scan that replaces it only on a strictly larger value. */
  function Max(xs: seq<real>): (m: real)
    requires |xs| > 0
    ensures exists k :: 0 <= k < |xs| && xs[k] == m
    ensures forall k :: 0 <= k < |xs| ==> xs[k] <= m
  {
    if |xs| == 1 then xs[0]
    else
      var m := Max(xs[..|xs| - 1]);
      if m < xs[|xs| - 1] then xs[|xs| - 1] else m
  }

  function MinBound(xs: seq<real>): Bound
  {
    if |xs| == 0 then PosInfinity else Finite(Min(xs))
  }

  function MaxBound(xs: seq<real>): Bound
  {
    if |xs| == 0 then NegInfinity else Finite(Max(xs))
  }

  /** A running minimum takes a new value exactly when it is strictly below the minimum so far. */
  lemma MinBoundStep(xs: seq<real>, v: real)
    ensures MinBound(xs + [v]) == if Below(Finite(v), MinBound(xs)) then Finite(v) else MinBound(xs)
  {
    assert (xs + [v])[..|xs|] == xs;
  }

  /** A running maximum takes a new value exactly when it is strictly above the maximum so far. */
  lemma MaxBoundStep(xs: seq<real>, v: real)
    ensures MaxBound(xs + [v]) == if Below(MaxBound(xs), Finite(v)) then Finite(v) else MaxBound(xs)
  {
    assert (xs + [v])[..|xs|] == xs;
  }

  /** Extending the scanned prefix by one UV extends both projections by its coordinates. */
  lemma ProjectionsStep(uv: seq<Vec2>, i: int)
    requires 0 <= i < |uv|
    ensures Xs(uv[..i + 1]) == Xs(uv[..i]) + [uv[i].x]
    ensures Ys(uv[..i + 1]) == Ys(uv[..i]) + [uv[i].y]
    ensures Sum2(uv[..i + 1]) == Add2(Sum2(uv[..i]), uv[i])
  {
    assert uv[..i + 1][..i] == uv[..i];
  }

  /**
   * The loop of SetTile: the sum of the sprite's UVs and their extents on
   * both axes, the extents starting at the infinities as in the source.
   */
  method Extents(uv: seq<Vec2>) returns (c: Vec2, minX: Bound, maxX: Bound, minY: Bound, maxY: Bound)
    ensures c == Sum2(uv)
    ensures minX == MinBound(Xs(uv)) && maxX == MaxBound(Xs(uv))
    ensures minY == MinBound(Ys(uv)) && maxY == MaxBound(Ys(uv))
  {
    c := Zero2;
    minX, minY := PosInfinity, PosInfinity;
    maxX, maxY := NegInfinity, NegInfinity;
    for i := 0 to |uv|
      invariant c == Sum2(uv[..i])
      invariant minX == MinBound(Xs(uv[..i])) && maxX == MaxBound(Xs(uv[..i]))
      invariant minY == MinBound(Ys(uv[..i])) && maxY == MaxBound(Ys(uv[..i]))
    {
      var v := uv[i];
      ProjectionsStep(uv, i);
      MinBoundStep(Xs(uv[..i]), v.x);
      MaxBoundStep(Xs(uv[..i]), v.x);
      MinBoundStep(Ys(uv[..i]), v.y);
      MaxBoundStep(Ys(uv[..i]), v.y);
      c := Add2(c, v);
      if Below(Finite(v.x), minX) {
        minX := Finite(v.x);
      }
      if Below(maxX, Finite(v.x)) {
        maxX := Finite(v.x);
      }
      if Below(Finite(v.y), minY) {
        minY := Finite(v.y);
      }
      if Below(maxY, Finite(v.y)) {
        maxY := Finite(v.y);
      }
    }
    assert uv[..|uv|] == uv;
  }

  /** The tile centre as written: the UV sum divided by four, whatever the number of UVs. */
  function TileCenter(uv: seq<Vec2>): Vec2
  {
    Div2(Sum2(uv), 4.0)
  }

  /** Half the width and height of the sprite's UV bounding box. */
  function TileHalfSize(uv: seq<Vec2>): (h: Vec2)
    requires |uv| > 0
    ensures h.x >= 0.0 && h.y >= 0.0
  {
    Vec2((Max(Xs(uv)) - Min(Xs(uv))) / 2.0, (Max(Ys(uv)) - Min(Ys(uv))) / 2.0)
  }

  /** For the four outline UVs of a rectangular sprite the centre is their mean. */
  lemma {:induction false} FourCornerCenter(uv: seq<Vec2>)
    requires |uv| == 4
    ensures TileCenter(uv) == Vec2((uv[0].x + uv[1].x + uv[2].x + uv[3].x) / 4.0,
                                   (uv[0].y + uv[1].y + uv[2].y + uv[3].y) / 4.0)
  {
    assert uv[..4] == uv;
    assert uv[..4][..3] == uv[..3] && uv[..3][..2] == uv[..2] && uv[..2][..1] == uv[..1] && uv[..1][..0] == [];
    assert Sum2(uv[..1][..0]) == Zero2;
    var s1 := Sum2(uv[..1]);
    assert s1 == Add2(Zero2, uv[..1][0]);
    assert s1 == Vec2(0.0 + uv[0].x, 0.0 + uv[0].y);
    var s2 := Sum2(uv[..2]);
    assert s2 == Vec2(s1.x + uv[1].x, s1.y + uv[1].y);
    var s3 := Sum2(uv[..3]);
    assert s3 == Vec2(s2.x + uv[2].x, s2.y + uv[2].y);
    assert Sum2(uv) == Vec2(s3.x + uv[3].x, s3.y + uv[3].y);
  }

  /** The outline of an axis-aligned rectangle from (x0, y0) to (x1, y1). */
  function RectangleUVs(x0: real, y0: real, x1: real, y1: real): seq<Vec2>
  {
    [Vec2(x0, y0), Vec2(x1, y0), Vec2(x1, y1), Vec2(x0, y1)]
  }

  /** A rectangular sprite gives the rectangle's midpoint and half extents. */
  lemma RectangleTile(x0: real, y0: real, x1: real, y1: real)
    requires x0 <= x1 && y0 <= y1
    ensures TileCenter(RectangleUVs(x0, y0, x1, y1)) == Vec2((x0 + x1) / 2.0, (y0 + y1) / 2.0)
    ensures TileHalfSize(RectangleUVs(x0, y0, x1, y1)) == Vec2((x1 - x0) / 2.0, (y1 - y0) / 2.0)
  {
    var uv := RectangleUVs(x0, y0, x1, y1);
    FourCornerCenter(uv);
    var xs := Xs(uv);
    assert xs == [x0, x1, x1, x0];
    assert Min(xs) == x0 && Max(xs) == x1;
    var ys := Ys(uv);
    assert ys == [y0, y0, y1, y1];
    assert Min(ys) == y0 && Max(ys) == y1;
  }

  /** So unrotated and half-turned UVs painted with a rectangular sprite are exactly its corners. */
  lemma RectangleTileCorners(x0: real, y0: real, x1: real, y1: real, angle: real, r: int)
    requires x0 <= x1 && y0 <= y1
    requires r == 0 || r == 2
    ensures var uv := RectangleUVs(x0, y0, x1, y1);
      GetUV(angle, TileCenter(uv), TileHalfSize(uv), r) in uv
  {
    var uv := RectangleUVs(x0, y0, x1, y1);
    RectangleTile(x0, y0, x1, y1);
    var c := Vec2((x0 + x1) / 2.0, (y0 + y1) / 2.0);
    var h := Vec2((x1 - x0) / 2.0, (y1 - y0) / 2.0);
    var q := Quadrant(angle);
    var corner := if r == 0 then q else (q + 2) % 4;
    if r == 2 {
      GetUVHalfTurn(angle, c, h);
    }
    assert GetUV(angle, c, h, r) == Add2(c, CornerDisplacement(corner, h));
    assert Add2(c, CornerDisplacement(corner, h)) == uv[if corner == 0 then 2 else if corner == 1 then 3 else if corner == 2 then 0 else 1];
  }
}
