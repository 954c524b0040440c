/**
 * Exact vector arithmetic standing in for Unity's `Vector2`/`Vector3`.
 * Coordinates are `real`, so sums, means and comparisons are exact.
 */
module Geometry {

  datatype Vec2 = Vec2(x: real, y: real)
  datatype Vec3 = Vec3(x: real, y: real, z: real)

  const Zero2: Vec2 := Vec2(0.0, 0.0)
  const Zero3: Vec3 := Vec3(0.0, 0.0, 0.0)

  function Add2(p: Vec2, q: Vec2): Vec2 { Vec2(p.x + q.x, p.y + q.y) }
  function Scale2(p: Vec2, k: real): Vec2 { Vec2(k * p.x, k * p.y) }
  function Div2(p: Vec2, d: real): Vec2 requires d != 0.0 { Vec2(p.x / d, p.y / d) }

  function Add3(p: Vec3, q: Vec3): Vec3 { Vec3(p.x + q.x, p.y + q.y, p.z + q.z) }
  function Sub3(p: Vec3, q: Vec3): Vec3 { Vec3(p.x - q.x, p.y - q.y, p.z - q.z) }
  function Scale3(p: Vec3, k: real): Vec3 { Vec3(k * p.x, k * p.y, k * p.z) }
  function Div3(p: Vec3, d: real): Vec3 requires d != 0.0 { Vec3(p.x / d, p.y / d, p.z / d) }

  /** Squared Euclidean distance; it orders pairs of points exactly as `Vector3.Distance` does. */
  function SqDist(p: Vec3, q: Vec3): (r: real)
    ensures r >= 0.0
  {
    (p.x - q.x) * (p.x - q.x) + (p.y - q.y) * (p.y - q.y) + (p.z - q.z) * (p.z - q.z)
  }

  /** Sum of a sequence of points, accumulated from the front as a loop does. */
  function Sum3(ps: seq<Vec3>): Vec3
  {
    if |ps| == 0 then Zero3 else Add3(Sum3(ps[..|ps| - 1]), ps[|ps| - 1])
  }

  function Sum2(ps: seq<Vec2>): Vec2
  {
    if |ps| == 0 then Zero2 else Add2(Sum2(ps[..|ps| - 1]), ps[|ps| - 1])
  }

  /** The centroid: the sum divided by the number of points. */
  function Mean3(ps: seq<Vec3>): Vec3
    requires |ps| > 0
  {
    Div3(Sum3(ps), |ps| as real)
  }

  /** Every point moved by `-c`. */
  function Shift(ps: seq<Vec3>, c: Vec3): (r: seq<Vec3>)
    ensures |r| == |ps|
    ensures forall i :: 0 <= i < |ps| ==> r[i] == Sub3(ps[i], c)
  {
    seq(|ps|, i requires 0 <= i < |ps| => Sub3(ps[i], c))
  }

  /** The offsets of the points from their centroid. */
  function Displacements(ps: seq<Vec3>): (r: seq<Vec3>)
    requires |ps| > 0
    ensures |r| == |ps|
  {
    Shift(ps, Mean3(ps))
  }

  lemma ScaleSucc(c: Vec3, m: real)
    ensures Scale3(c, m + 1.0) == Add3(Scale3(c, m), c)
  {
    assert (m + 1.0) * c.x == m * c.x + c.x;
    assert (m + 1.0) * c.y == m * c.y + c.y;
    assert (m + 1.0) * c.z == m * c.z + c.z;
  }

  lemma {:induction false} SumShift(ps: seq<Vec3>, c: Vec3)
    ensures Sum3(Shift(ps, c)) == Sub3(Sum3(ps), Scale3(c, |ps| as real))
  {
    if |ps| > 0 {
      var n := |ps|;
      var init := ps[..n - 1];
      assert Shift(ps, c)[..n - 1] == Shift(init, c);
      SumShift(init, c);
      ScaleSucc(c, (n - 1) as real);
      assert Sum3(Shift(ps, c)) == Add3(Sub3(Sum3(init), Scale3(c, (n - 1) as real)), Sub3(ps[n - 1], c));
      assert Sum3(ps) == Add3(Sum3(init), ps[n - 1]);
    }
  }

  /** The displacements from the centroid cancel out: the centroid is the balance point. */
  lemma DisplacementsBalance(ps: seq<Vec3>)
    requires |ps| > 0
    ensures Sum3(Displacements(ps)) == Zero3
  {
    var n := |ps| as real;
    var s := Sum3(ps);
    var m := Mean3(ps);
    assert Displacements(ps) == Shift(ps, m);
    SumShift(ps, m);
    assert m == Vec3(s.x / n, s.y / n, s.z / n);
    assert n * (s.x / n) == s.x;
    assert n * (s.y / n) == s.y;
    assert n * (s.z / n) == s.z;
    assert Scale3(m, n) == s;
  }
}
