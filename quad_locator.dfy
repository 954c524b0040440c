/**
 * Finding the quad under the cursor (Assets/TileMeshPaint.cs, UpdateMouseOverInfo
 * after the raycast): the longest edge of the hit triangle, then the first other
 * triangle whose corner positions contain both ends of that edge.
 */
module QuadLocator {
  import opened Wrappers
  import opened Geometry
  import opened Meshes

  /** Offset `t` is the start of a triangle of the buffer. */
  predicate IsTriangleOffset(triangles: seq<int>, t: int)
  {
    0 <= t && t % 3 == 0 && t + 3 <= |triangles|
  }

  /** Position of corner `c` (0, 1 or 2) of the triangle starting at offset `t`. */
  function CornerAt(vertices: seq<Vec3>, triangles: seq<int>, t: int, c: int): Vec3
    requires TrianglesValid(vertices, triangles) && IsTriangleOffset(triangles, t) && 0 <= c < 3
  {
    vertices[triangles[t + c]]
  }

  /** The length (squared) of edge `k`: edge 0 is corner 0-1, edge 1 is 1-2, edge 2 is 2-0. */
  function EdgeLength(d01: real, d12: real, d20: real, k: int): real
  {
    if k == 0 then d01 else if k == 1 then d12 else d20
  }

  /**
   * The edge the source keeps after its two `maxDist < ...` tests: the longest
   * one, and on a tie the earliest in the order 0-1, 1-2, 2-0.
   */
  function LongestEdge(d01: real, d12: real, d20: real): (k: int)
    ensures 0 <= k < 3
    ensures forall e :: 0 <= e < 3 ==> EdgeLength(d01, d12, d20, e) <= EdgeLength(d01, d12, d20, k)
    ensures forall e :: 0 <= e < k ==> EdgeLength(d01, d12, d20, e) < EdgeLength(d01, d12, d20, k)
  {
    if d01 < d12 then (if d12 < d20 then 2 else 1) else (if d01 < d20 then 2 else 0)
  }

  /** The longest edge of the hit triangle, measured between world positions. */
  function HitLongestEdge(vertices: seq<Vec3>, triangles: seq<int>, toWorld: Vec3 -> Vec3, hit: int): (k: int)
    requires TrianglesValid(vertices, triangles) && IsTriangleOffset(triangles, hit)
    ensures 0 <= k < 3
  {
    var p0 := toWorld(CornerAt(vertices, triangles, hit, 0));
    var p1 := toWorld(CornerAt(vertices, triangles, hit, 1));
    var p2 := toWorld(CornerAt(vertices, triangles, hit, 2));
    LongestEdge(SqDist(p0, p1), SqDist(p1, p2), SqDist(p2, p0))
  }

  /** The two local positions at the ends of edge `k` of the hit triangle. */
  function EdgeEnds(vertices: seq<Vec3>, triangles: seq<int>, hit: int, k: int): (Vec3, Vec3)
    requires TrianglesValid(vertices, triangles) && IsTriangleOffset(triangles, hit) && 0 <= k < 3
  {
    (CornerAt(vertices, triangles, hit, k), CornerAt(vertices, triangles, hit, (k + 1) % 3))
  }

  /** Position `p` is one of the corner positions of triangle `t`. */
  predicate HasCorner(vertices: seq<Vec3>, triangles: seq<int>, t: int, p: Vec3)
    requires TrianglesValid(vertices, triangles) && IsTriangleOffset(triangles, t)
  {
    p == CornerAt(vertices, triangles, t, 0) || p == CornerAt(vertices, triangles, t, 1) || p == CornerAt(vertices, triangles, t, 2)
  }

  /** Triangle `t` is not the hit one and contains both edge ends, compared by position. */
  predicate IsAdjacent(vertices: seq<Vec3>, triangles: seq<int>, hit: int, a: Vec3, b: Vec3, t: int)
    requires TrianglesValid(vertices, triangles)
  {
    IsTriangleOffset(triangles, t) && t != hit &&
    HasCorner(vertices, triangles, t, a) && HasCorner(vertices, triangles, t, b)
  }

  /** The first triangle offset at or after `from` that is adjacent, in buffer order. */
  function FirstAdjacentFrom(vertices: seq<Vec3>, triangles: seq<int>, hit: int, a: Vec3, b: Vec3, from: int): Option<int>
    requires TrianglesValid(vertices, triangles) && 0 <= from && from % 3 == 0
    decreases |triangles| - from
  {
    if |triangles| <= from then None
    else if IsAdjacent(vertices, triangles, hit, a, b, from) then Some(from)
    else FirstAdjacentFrom(vertices, triangles, hit, a, b, from + 3)
  }

  /**
   * The scan finds the first adjacent triangle at or after `from`, and
   * reports none only when no triangle at or after `from` is adjacent.
   */
  lemma {:induction false} FirstAdjacentIsFirst(vertices: seq<Vec3>, triangles: seq<int>, hit: int, a: Vec3, b: Vec3, from: int)
    requires TrianglesValid(vertices, triangles) && 0 <= from && from % 3 == 0
    decreases |triangles| - from
    ensures var r := FirstAdjacentFrom(vertices, triangles, hit, a, b, from);
      (r.Some? ==>
        from <= r.value && IsAdjacent(vertices, triangles, hit, a, b, r.value) &&
        forall t :: from <= t < r.value ==> !IsAdjacent(vertices, triangles, hit, a, b, t)) &&
      (r.None? ==> forall t :: from <= t ==> !IsAdjacent(vertices, triangles, hit, a, b, t))
  {
    if |triangles| > from && !IsAdjacent(vertices, triangles, hit, a, b, from) {
      FirstAdjacentIsFirst(vertices, triangles, hit, a, b, from + 3);
      forall t | from <= t < from + 3
        ensures !IsAdjacent(vertices, triangles, hit, a, b, t)
      {
      }
    }
  }

  /** The triangle offset matched to the hit triangle, if any: the result of the lookup. */
  function AdjacentOffset(vertices: seq<Vec3>, triangles: seq<int>, toWorld: Vec3 -> Vec3, hit: int): (r: Option<int>)
    requires TrianglesValid(vertices, triangles) && IsTriangleOffset(triangles, hit)
    ensures r.Some? ==> IsTriangleOffset(triangles, r.value) && r.value != hit
  {
    var (a, b) := EdgeEnds(vertices, triangles, hit, HitLongestEdge(vertices, triangles, toWorld, hit));
    FirstAdjacentIsFirst(vertices, triangles, hit, a, b, 0);
    FirstAdjacentFrom(vertices, triangles, hit, a, b, 0)
  }

  /** The recorded indexes: the hit triangle's three, then the matched triangle's three. */
  function QuadIndexes(triangles: seq<int>, hit: int, t: int): seq<int>
    requires IsTriangleOffset(triangles, hit) && IsTriangleOffset(triangles, t)
  {
    [triangles[hit], triangles[hit + 1], triangles[hit + 2], triangles[t], triangles[t + 1], triangles[t + 2]]
  }

  /** The recorded world positions of those six corners. */
  function QuadPositions(vertices: seq<Vec3>, triangles: seq<int>, toWorld: Vec3 -> Vec3, hit: int, t: int): seq<Vec3>
    requires TrianglesValid(vertices, triangles) && IsTriangleOffset(triangles, hit) && IsTriangleOffset(triangles, t)
  {
    [toWorld(CornerAt(vertices, triangles, hit, 0)), toWorld(CornerAt(vertices, triangles, hit, 1)),
     toWorld(CornerAt(vertices, triangles, hit, 2)), toWorld(CornerAt(vertices, triangles, t, 0)),
     toWorld(CornerAt(vertices, triangles, t, 1)), toWorld(CornerAt(vertices, triangles, t, 2))]
  }

  /** What the lookup records: the six indexes and six world positions of the quad, when there is one. */
  function Lookup(vertices: seq<Vec3>, triangles: seq<int>, toWorld: Vec3 -> Vec3, hit: int): (r: Option<(seq<int>, seq<Vec3>)>)
    requires TrianglesValid(vertices, triangles) && IsTriangleOffset(triangles, hit)
    ensures r.Some? ==> |r.value.0| == 6 && |r.value.1| == 6 && IndicesBelow(r.value.0, |vertices|)
    ensures r.Some? ==> r.value.0[..3] == triangles[hit..hit + 3]
  {
    match AdjacentOffset(vertices, triangles, toWorld, hit)
    case None => None
    case Some(t) => Some((QuadIndexes(triangles, hit, t), QuadPositions(vertices, triangles, toWorld, hit, t)))
  }

  /**
   * The lookup records a quad exactly when some other triangle holds both ends
   * of the hit triangle's longest edge, and then it records the first such one.
   */
  lemma LookupIsFirstMatch(vertices: seq<Vec3>, triangles: seq<int>, toWorld: Vec3 -> Vec3, hit: int)
    requires TrianglesValid(vertices, triangles) && IsTriangleOffset(triangles, hit)
    ensures var (a, b) := EdgeEnds(vertices, triangles, hit, HitLongestEdge(vertices, triangles, toWorld, hit));
      match Lookup(vertices, triangles, toWorld, hit)
      case None => forall t :: !IsAdjacent(vertices, triangles, hit, a, b, t)
      case Some(found) =>
        exists t :: IsAdjacent(vertices, triangles, hit, a, b, t) &&
          (forall u :: 0 <= u < t ==> !IsAdjacent(vertices, triangles, hit, a, b, u)) &&
          found == (QuadIndexes(triangles, hit, t), QuadPositions(vertices, triangles, toWorld, hit, t))
  {
    var (a, b) := EdgeEnds(vertices, triangles, hit, HitLongestEdge(vertices, triangles, toWorld, hit));
    FirstAdjacentIsFirst(vertices, triangles, hit, a, b, 0);
    var r := FirstAdjacentFrom(vertices, triangles, hit, a, b, 0);
    if r.Some? {
      var t := r.value;
      assert IsAdjacent(vertices, triangles, hit, a, b, t);
    } else {
      forall t ensures !IsAdjacent(vertices, triangles, hit, a, b, t) {
        if t < 0 {
          assert !IsTriangleOffset(triangles, t);
        }
      }
    }
  }

  /**
   * The source's two `maxDist < Vector3.Distance(...)` updates: the local end
   * positions `a`, `b` of the longest edge, world lengths deciding.
   */
  method LongestEdgeEnds(p0: Vec3, p1: Vec3, p2: Vec3, v0: Vec3, v1: Vec3, v2: Vec3) returns (a: Vec3, b: Vec3)
    ensures var k := LongestEdge(SqDist(p0, p1), SqDist(p1, p2), SqDist(p2, p0));
      a == [v0, v1, v2][k] && b == [v0, v1, v2][(k + 1) % 3]
  {
    var maxDist := SqDist(p0, p1);
    a, b := v0, v1;
    if maxDist < SqDist(p1, p2) {
      maxDist := SqDist(p1, p2);
      a, b := v1, v2;
    }
    if maxDist < SqDist(p2, p0) {
      maxDist := SqDist(p2, p0);
      a, b := v2, v0;
    }
  }

  /**
   * The quad lookup. Returns the six indexes and six world positions, or
   * null for both when no other triangle holds both ends of the longest edge.
   */
  method LocateQuad(vertices: array<Vec3>, triangles: array<int>, toWorld: Vec3 -> Vec3, triangleIndex: int)
    returns (indexes: array?<int>, quad: array?<Vec3>)
    requires TrianglesValid(vertices[..], triangles[..])
    requires IsTriangleOffset(triangles[..], triangleIndex)
    ensures (indexes == null) == (quad == null)
    ensures Lookup(vertices[..], triangles[..], toWorld, triangleIndex) ==
      if indexes == null then None else Some((indexes[..], quad[..]))
  {
    ghost var V, T := vertices[..], triangles[..];
    ghost var hit := triangleIndex;
    CornersInRange(V, T, hit);
    var i0 := triangles[triangleIndex + 0];
    var i1 := triangles[triangleIndex + 1];
    var i2 := triangles[triangleIndex + 2];

    var p0 := toWorld(vertices[i0]);
    var p1 := toWorld(vertices[i1]);
    var p2 := toWorld(vertices[i2]);

    var a, b := LongestEdgeEnds(p0, p1, p2, vertices[i0], vertices[i1], vertices[i2]);
    assert (a, b) == EdgeEnds(V, T, hit, HitLongestEdge(V, T, toWorld, hit));
    ghost var r := FirstAdjacentFrom(V, T, hit, a, b, 0);
    assert r == AdjacentOffset(V, T, toWorld, hit);

    indexes, quad := null, null;
    var j := 0;
    while j < triangles.Length
      invariant 0 <= j && j % 3 == 0
      invariant indexes == null && quad == null
      invariant FirstAdjacentFrom(V, T, hit, a, b, j) == r
      decreases triangles.Length - j
    {
      OffsetInBounds(triangles.Length, j);
      CornersInRange(V, T, j);
      var j0 := triangles[j + 0];
      var j1 := triangles[j + 1];
      var j2 := triangles[j + 2];

      var v0 := vertices[j0];
      var v1 := vertices[j1];
      var v2 := vertices[j2];

      FirstAdjacentStep(V, T, hit, a, b, j);
      if j != triangleIndex && (a == v0 || a == v1 || a == v2) && (b == v0 || b == v1 || b == v2) {
        ghost var found := [i0, i1, i2, j0, j1, j2];
        ghost var corners := [p0, p1, p2, toWorld(v0), toWorld(v1), toWorld(v2)];
        QuadAt(V, T, toWorld, hit, j, found, corners);
        indexes := new int[][i0, i1, i2, j0, j1, j2];
        quad := new Vec3[][p0, p1, p2, toWorld(v0), toWorld(v1), toWorld(v2)];
        assert indexes[..] == found && quad[..] == corners;
        break;
      }
      j := j + 3;
    }
  }

  /** A multiple of three below a multiple of three leaves room for a whole triangle. */
  lemma OffsetInBounds(n: int, t: int)
    requires n % 3 == 0 && t % 3 == 0 && 0 <= t < n
    ensures t + 3 <= n
  {
    assert n == 3 * (n / 3) && t == 3 * (t / 3);
  }

  /** The three corners of triangle `t` name vertices of the buffer. */
  lemma CornersInRange(vertices: seq<Vec3>, triangles: seq<int>, t: int)
    requires TrianglesValid(vertices, triangles) && IsTriangleOffset(triangles, t)
    ensures 0 <= triangles[t] < |vertices| && 0 <= triangles[t + 1] < |vertices| && 0 <= triangles[t + 2] < |vertices|
  {
  }

  /** One step of the scan: triangle `t` matches by its corner positions, or the answer lies further on. */
  lemma FirstAdjacentStep(vertices: seq<Vec3>, triangles: seq<int>, hit: int, a: Vec3, b: Vec3, t: int)
    requires TrianglesValid(vertices, triangles) && IsTriangleOffset(triangles, t)
    ensures var v0, v1, v2 := vertices[triangles[t]], vertices[triangles[t + 1]], vertices[triangles[t + 2]];
      if t != hit && (a == v0 || a == v1 || a == v2) && (b == v0 || b == v1 || b == v2)
      then FirstAdjacentFrom(vertices, triangles, hit, a, b, t) == Some(t)
      else ((t + 3) % 3 == 0 &&
            FirstAdjacentFrom(vertices, triangles, hit, a, b, t) == FirstAdjacentFrom(vertices, triangles, hit, a, b, t + 3))
  {
  }

  /** The two six-element lists built on a match are the recorded indexes and world positions. */
  lemma QuadAt(vertices: seq<Vec3>, triangles: seq<int>, toWorld: Vec3 -> Vec3, hit: int, t: int,
               indexes: seq<int>, quad: seq<Vec3>)
    requires TrianglesValid(vertices, triangles) && IsTriangleOffset(triangles, hit) && IsTriangleOffset(triangles, t)
    requires indexes == [triangles[hit], triangles[hit + 1], triangles[hit + 2], triangles[t], triangles[t + 1], triangles[t + 2]]
    requires quad == [toWorld(vertices[triangles[hit]]), toWorld(vertices[triangles[hit + 1]]), toWorld(vertices[triangles[hit + 2]]),
                      toWorld(vertices[triangles[t]]), toWorld(vertices[triangles[t + 1]]), toWorld(vertices[triangles[t + 2]])]
    ensures indexes == QuadIndexes(triangles, hit, t)
    ensures quad == QuadPositions(vertices, triangles, toWorld, hit, t)
    ensures IndicesBelow(indexes, |vertices|)
  {
  }

  /** Matching compares positions only, so the lookup gives the same answer once the mesh is unshared. */
  lemma {:induction false} FirstAdjacentSameCorners(d: MeshData, e: MeshData, hit: int, a: Vec3, b: Vec3, from: int)
    requires WellFormed(d) && WellFormed(e) && CornerPositions(d) == CornerPositions(e)
    requires 0 <= from && from % 3 == 0
    decreases |d.triangles| - from
    ensures FirstAdjacentFrom(d.vertices, d.triangles, hit, a, b, from) == FirstAdjacentFrom(e.vertices, e.triangles, hit, a, b, from)
  {
    if from < |d.triangles| {
      assert IsTriangleOffset(d.triangles, from) ==> forall c :: 0 <= c < 3 ==>
        CornerAt(d.vertices, d.triangles, from, c) == CornerPositions(d)[from + c] == CornerAt(e.vertices, e.triangles, from, c);
      FirstAdjacentSameCorners(d, e, hit, a, b, from + 3);
    }
  }

  lemma UnshareKeepsQuads(d: MeshData, toWorld: Vec3 -> Vec3, hit: int)
    requires WellFormed(d) && IsTriangleOffset(d.triangles, hit)
    ensures WellFormed(Unshared(d))
    ensures AdjacentOffset(Unshared(d).vertices, Unshared(d).triangles, toWorld, hit) ==
            AdjacentOffset(d.vertices, d.triangles, toWorld, hit)
  {
    var u := Unshared(d);
    UnsharedKeepsCorners(d);
    assert forall c :: 0 <= c < 3 ==>
      CornerAt(u.vertices, u.triangles, hit, c) == CornerPositions(u)[hit + c] == CornerAt(d.vertices, d.triangles, hit, c);
    var k := HitLongestEdge(d.vertices, d.triangles, toWorld, hit);
    assert HitLongestEdge(u.vertices, u.triangles, toWorld, hit) == k;
    var (a, b) := EdgeEnds(d.vertices, d.triangles, hit, k);
    FirstAdjacentSameCorners(u, d, hit, a, b, 0);
  }

  /** On an unshared mesh the six recorded indexes are the six corner offsets themselves, all distinct. */
  lemma UnsharedQuadIndexesDistinct(d: MeshData, hit: int, t: int)
    requires WellFormed(d) && IsUnshared(d)
    requires IsTriangleOffset(d.triangles, hit) && IsTriangleOffset(d.triangles, t) && t != hit
    ensures QuadIndexes(d.triangles, hit, t) == [hit, hit + 1, hit + 2, t, t + 1, t + 2]
    ensures forall m, n :: 0 <= m < n < 6 ==> QuadIndexes(d.triangles, hit, t)[m] != QuadIndexes(d.triangles, hit, t)[n]
  {
  }
}
