/**
 * Choosing and writing the UVs of a located quad (Assets/TileMeshPaint.cs,
 * GetUV and the buffer write of HandleInput).
 */
module UVProjector {
  import opened Geometry
  import opened Meshes

  function Sub2(p: Vec2, q: Vec2): Vec2 { Vec2(p.x - q.x, p.y - q.y) }

  /**
   * The bucket of a signed angle in degrees: 0 for [0, 90), 1 for [-90, 0),
   * 2 for [-180, -90) and 3 for everything else. The buckets are disjoint and
   * cover every angle.
   */
  function Quadrant(angle: real): (q: int)
    ensures 0 <= q < 4
    ensures q == 0 <==> 0.0 <= angle < 90.0
    ensures q == 1 <==> -90.0 <= angle < 0.0
    ensures q == 2 <==> -180.0 <= angle < -90.0
    ensures q == 3 <==> angle < -180.0 || 90.0 <= angle
  {
    if 0.0 <= angle && angle < 90.0 then 0
    else if -90.0 <= angle && angle < 0.0 then 1
    else if -180.0 <= angle && angle < -90.0 then 2
    else 3
  }

  /** `Vector3.SignedAngle` answers in (-180, 180]; there the last bucket is exactly [90, 180]. */
  lemma LastQuadrantInSignedAngleRange(angle: real)
    requires -180.0 < angle <= 180.0
    ensures Quadrant(angle) == 3 <==> 90.0 <= angle <= 180.0
  {
  }

  /** The sign pattern of bucket `q` applied to the tile half-extents. */
  function CornerDisplacement(q: int, half: Vec2): Vec2
  {
    if q == 0 then Vec2(half.x, half.y)
    else if q == 1 then Vec2(-half.x, half.y)
    else if q == 2 then Vec2(-half.x, -half.y)
    else Vec2(half.x, -half.y)
  }

  function Displacement(angle: real, half: Vec2): Vec2
  {
    CornerDisplacement(Quadrant(angle), half)
  }

  /** The rotation popup's options, in degrees, indexed by `rotationIndex`. */
  const RotationOptions: seq<int> := [0, 90, 180, 270]

  /**
   * `Quaternion.AngleAxis(RotationOptions[r], Vector3.forward) * d` for the four
   * quarter turns, written as exact swaps and negations.
   */
  function Rotate(d: Vec2, r: int): Vec2
    requires 0 <= r < 4
  {
    if r == 0 then d
    else if r == 1 then Vec2(-d.y, d.x)
    else if r == 2 then Vec2(-d.x, -d.y)
    else Vec2(d.y, -d.x)
  }

  function CosDeg(deg: int): real
  {
    if deg == 0 then 1.0 else if deg == 180 then -1.0 else 0.0
  }

  function SinDeg(deg: int): real
  {
    if deg == 90 then 1.0 else if deg == 270 then -1.0 else 0.0
  }

  /** `Rotate` is the rotation matrix about the UV-plane normal for the selected option. */
  lemma RotateIsRotationMatrix(d: Vec2, r: int)
    requires 0 <= r < 4
    ensures var deg := RotationOptions[r];
      Rotate(d, r) == Vec2(d.x * CosDeg(deg) - d.y * SinDeg(deg), d.x * SinDeg(deg) + d.y * CosDeg(deg))
  {
  }

  /** Quarter turns compose by adding their indexes modulo 4; four of them are the identity. */
  lemma RotateCompose(d: Vec2, r: int, s: int)
    requires 0 <= r < 4 && 0 <= s < 4
    ensures Rotate(Rotate(d, r), s) == Rotate(d, (r + s) % 4)
  {
  }

  lemma FourQuarterTurns(d: Vec2)
    ensures Rotate(Rotate(Rotate(Rotate(d, 1), 1), 1), 1) == d
  {
  }

  /** Rotation keeps the squared length of a displacement. */
  lemma RotatePreservesLength(d: Vec2, r: int)
    requires 0 <= r < 4
    ensures Rotate(d, r).x * Rotate(d, r).x + Rotate(d, r).y * Rotate(d, r).y == d.x * d.x + d.y * d.y
  {
  }

  /** The UV that GetUV assigns to a vertex whose direction from the quad centre has the given signed angle. */
  function GetUV(angle: real, tileCenter: Vec2, tileHalfSize: Vec2, rotationIndex: int): Vec2
    requires 0 <= rotationIndex < 4
  {
    Add2(tileCenter, Rotate(Displacement(angle, tileHalfSize), rotationIndex))
  }

  /** With rotation 0 every bucket lands on its own tile corner. */
  lemma GetUVUnrotated(angle: real, c: Vec2, h: Vec2)
    ensures 0.0 <= angle < 90.0 ==> GetUV(angle, c, h, 0) == Vec2(c.x + h.x, c.y + h.y)
    ensures -90.0 <= angle < 0.0 ==> GetUV(angle, c, h, 0) == Vec2(c.x - h.x, c.y + h.y)
    ensures -180.0 <= angle < -90.0 ==> GetUV(angle, c, h, 0) == Vec2(c.x - h.x, c.y - h.y)
    ensures (angle < -180.0 || 90.0 <= angle) ==> GetUV(angle, c, h, 0) == Vec2(c.x + h.x, c.y - h.y)
  {
  }

  /** A half turn sends every bucket to the diagonally opposite tile corner. */
  lemma GetUVHalfTurn(angle: real, c: Vec2, h: Vec2)
    ensures GetUV(angle, c, h, 2) == Add2(c, CornerDisplacement((Quadrant(angle) + 2) % 4, h))
  {
  }

  /** On a square tile a quarter turn moves every bucket to the next tile corner. */
  lemma GetUVQuarterTurnSquare(angle: real, c: Vec2, h: Vec2)
    requires h.x == h.y
    ensures GetUV(angle, c, h, 1) == Add2(c, CornerDisplacement((Quadrant(angle) + 1) % 4, h))
    ensures GetUV(angle, c, h, 3) == Add2(c, CornerDisplacement((Quadrant(angle) + 3) % 4, h))
  {
    var q := Quadrant(angle);
    if q == 0 {
      assert (q + 1) % 4 == 1 && (q + 3) % 4 == 3;
    } else if q == 1 {
      assert (q + 1) % 4 == 2 && (q + 3) % 4 == 0;
    } else if q == 2 {
      assert (q + 1) % 4 == 3 && (q + 3) % 4 == 1;
    } else {
      assert (q + 1) % 4 == 0 && (q + 3) % 4 == 2;
    }
  }

  lemma RotateScales(d: Vec2, k: real, r: int)
    requires 0 <= r < 4
    ensures Rotate(Scale2(d, k), r) == Scale2(Rotate(d, r), k)
  {
    var x, y := d.x, d.y;
    assert k * -x == -(k * x) && k * -y == -(k * y);
    if r == 1 {
      assert Rotate(Scale2(d, k), r) == Vec2(-(k * y), k * x);
    } else if r == 2 {
      assert Rotate(Scale2(d, k), r) == Vec2(-(k * x), -(k * y));
    } else if r == 3 {
      assert Rotate(Scale2(d, k), r) == Vec2(k * y, -(k * x));
    }
  }

  lemma CornerDisplacementScales(q: int, h: Vec2, k: real)
    ensures CornerDisplacement(q, Scale2(h, k)) == Scale2(CornerDisplacement(q, h), k)
  {
    assert k * -h.x == -(k * h.x) && k * -h.y == -(k * h.y);
  }

  /** The UV offset from the tile centre scales linearly with the tile half-size. */
  lemma GetUVScales(angle: real, c: Vec2, h: Vec2, k: real, r: int)
    requires 0 <= r < 4
    ensures Sub2(GetUV(angle, c, Scale2(h, k), r), c) == Scale2(Sub2(GetUV(angle, c, h, r), c), k)
  {
    var d := Displacement(angle, h);
    CornerDisplacementScales(Quadrant(angle), h, k);
    var e := Rotate(d, r);
    RotateScales(d, k, r);
    assert GetUV(angle, c, Scale2(h, k), r) == Add2(c, Scale2(e, k));
    assert GetUV(angle, c, h, r) == Add2(c, e);
    assert Sub2(Add2(c, Scale2(e, k)), c) == Scale2(e, k);
    assert Sub2(Add2(c, e), c) == e;
  }

  /** The corner written at slot `i` is the last one written there: no later slot names the same vertex. */
  ghost predicate LastWrite(idx: seq<int>, i: int)
    requires 0 <= i < |idx|
  {
    forall j :: i < j < |idx| ==> idx[j] != idx[i]
  }

  /** The buffer after `s[idx[0]] := vals[0]`, then `s[idx[1]] := vals[1]`, and so on. */
  function Overwrite(s: seq<Vec2>, idx: seq<int>, vals: seq<Vec2>): (r: seq<Vec2>)
    requires |idx| == |vals| && IndicesBelow(idx, |s|)
    decreases |idx|
    ensures |r| == |s|
  {
    if |idx| == 0 then s
    else
      var n := |idx| - 1;
      Overwrite(s, idx[..n], vals[..n])[idx[n] := vals[n]]
  }

  /** A slot that no write names keeps its old value. */
  lemma {:induction false} OverwriteKeeps(s: seq<Vec2>, idx: seq<int>, vals: seq<Vec2>, k: int)
    requires |idx| == |vals| && IndicesBelow(idx, |s|)
    requires 0 <= k < |s| && k !in idx
    decreases |idx|
    ensures Overwrite(s, idx, vals)[k] == s[k]
  {
    if |idx| > 0 {
      var n := |idx| - 1;
      assert forall j :: 0 <= j < n ==> idx[..n][j] == idx[j];
      assert k != idx[n];
      OverwriteKeeps(s, idx[..n], vals[..n], k);
    }
  }

  /** The value written at slot `i` survives when no later write names the same slot. */
  lemma {:induction false} OverwriteLastWrite(s: seq<Vec2>, idx: seq<int>, vals: seq<Vec2>, i: int)
    requires |idx| == |vals| && IndicesBelow(idx, |s|)
    requires 0 <= i < |idx| && LastWrite(idx, i)
    decreases |idx|
    ensures Overwrite(s, idx, vals)[idx[i]] == vals[i]
  {
    var n := |idx| - 1;
    if i < n {
      assert idx[..n][i] == idx[i] && vals[..n][i] == vals[i];
      assert idx[n] != idx[i];
      OverwriteLastWrite(s, idx[..n], vals[..n], i);
    }
  }

  /** One more write extends the overwritten prefix by one slot. */
  lemma OverwriteStep(s: seq<Vec2>, idx: seq<int>, vals: seq<Vec2>, i: int)
    requires |idx| == |vals| && IndicesBelow(idx, |s|) && 0 <= i < |idx|
    ensures IndicesBelow(idx[..i], |s|) && IndicesBelow(idx[..i + 1], |s|)
    ensures Overwrite(s, idx[..i + 1], vals[..i + 1]) == Overwrite(s, idx[..i], vals[..i])[idx[i] := vals[i]]
  {
    var p, q := idx[..i + 1], vals[..i + 1];
    assert forall j :: 0 <= j <= i ==> p[j] == idx[j];
    assert p[..i] == idx[..i] && q[..i] == vals[..i];
    assert p[i] == idx[i] && q[i] == vals[i];
    assert Overwrite(s, p, q) == Overwrite(s, p[..i], q[..i])[p[i] := q[i]];
  }

  /** The six UVs computed for the quad corners, from their offsets to the quad centre. */
  function QuadUVs(quad: seq<Vec3>, angleOf: Vec3 -> real, tileCenter: Vec2, tileHalfSize: Vec2, rotationIndex: int): (r: seq<Vec2>)
    requires |quad| > 0 && 0 <= rotationIndex < 4
    ensures |r| == |quad|
  {
    var dirs := Displacements(quad);
    seq(|quad|, i requires 0 <= i < |quad| => GetUV(angleOf(dirs[i]), tileCenter, tileHalfSize, rotationIndex))
  }

  /** The accumulation loop of HandleInput: the mean of the quad's world positions. */
  method QuadCenter(quad: array<Vec3>) returns (center: Vec3)
    requires quad.Length > 0
    ensures center == Mean3(quad[..])
  {
    center := Zero3;
    for i := 0 to quad.Length
      invariant center == Sum3(quad[..i])
    {
      assert quad[..i + 1][..i] == quad[..i];
      center := Add3(center, quad[i]);
    }
    assert quad[..quad.Length] == quad[..];
    center := Div3(center, quad.Length as real);
  }

  /**
   * The buffer write of HandleInput: a copy of `uv` in which slot
   * `indexes[i]` receives the UV of quad corner `i`, in order.
   */
  method PaintQuadUVs(uv: array<Vec2>, indexes: array<int>, quad: array<Vec3>, angleOf: Vec3 -> real,
                      tileCenter: Vec2, tileHalfSize: Vec2, rotationIndex: int)
    returns (newUV: array<Vec2>)
    requires 0 < quad.Length <= indexes.Length
    requires IndicesBelow(indexes[..quad.Length], uv.Length)
    requires 0 <= rotationIndex < 4
    ensures newUV[..] == Overwrite(uv[..], indexes[..quad.Length], QuadUVs(quad[..], angleOf, tileCenter, tileHalfSize, rotationIndex))
  {
    newUV := new Vec2[uv.Length];
    forall k | 0 <= k < uv.Length {
      newUV[k] := uv[k];
    }
    var quadCenter := QuadCenter(quad);
    ghost var idx := indexes[..quad.Length];
    ghost var vals := QuadUVs(quad[..], angleOf, tileCenter, tileHalfSize, rotationIndex);
    for i := 0 to quad.Length
      invariant IndicesBelow(idx[..i], uv.Length)
      invariant newUV[..] == Overwrite(uv[..], idx[..i], vals[..i])
    {
      OverwriteStep(uv[..], idx, vals, i);
      newUV[indexes[i]] := GetUV(angleOf(Sub3(quad[i], quadCenter)), tileCenter, tileHalfSize, rotationIndex);
    }
    assert idx[..quad.Length] == idx && vals[..quad.Length] == vals;
  }
}
