/**
 * A mesh's three parallel buffers and the "unshare vertices" rebuild
 * (Assets/TileMeshPaint.cs, UnshareMeshVertices).
 */
module Meshes {
  import opened Geometry

  /** The value held by a mesh: positions, UVs (same index space) and triangle corners. */
  datatype MeshData = MeshData(vertices: seq<Vec3>, uv: seq<Vec2>, triangles: seq<int>)

  /** Triangle corners come in threes and name existing vertices. */
  predicate TrianglesValid(vertices: seq<Vec3>, triangles: seq<int>)
  {
    |triangles| % 3 == 0 &&
    forall i :: 0 <= i < |triangles| ==> 0 <= triangles[i] < |vertices|
  }

  /** Every entry of an index list names one of `n` vertex records. */
  predicate IndicesBelow(idx: seq<int>, n: int)
  {
    forall i :: 0 <= i < |idx| ==> 0 <= idx[i] < n
  }

  /** The buffer invariant the tool relies on: valid triangles and one UV per vertex. */
  predicate WellFormed(d: MeshData)
  {
    TrianglesValid(d.vertices, d.triangles) && |d.uv| == |d.vertices|
  }

  /** The position of every triangle corner, in corner order ("triangle soup"). */
  function CornerPositions(d: MeshData): (r: seq<Vec3>)
    requires WellFormed(d)
    ensures |r| == |d.triangles|
  {
    seq(|d.triangles|, i requires 0 <= i < |d.triangles| => d.vertices[d.triangles[i]])
  }

  /** The UV of every triangle corner, in corner order. */
  function CornerUVs(d: MeshData): (r: seq<Vec2>)
    requires WellFormed(d)
    ensures |r| == |d.triangles|
  {
    seq(|d.triangles|, i requires 0 <= i < |d.triangles| => d.uv[d.triangles[i]])
  }

  /** No vertex record is used by two corners, and corner `i` uses record `i`. */
  predicate IsUnshared(d: MeshData)
  {
    |d.vertices| == |d.uv| == |d.triangles| &&
    forall i :: 0 <= i < |d.triangles| ==> d.triangles[i] == i
  }

  /** The mesh rebuilt so that every triangle corner owns its vertex record. */
  function Unshared(d: MeshData): MeshData
    requires WellFormed(d)
  {
    MeshData(CornerPositions(d), CornerUVs(d), seq(|d.triangles|, i => i))
  }

  /** Unsharing yields a well-formed, unshared mesh in which every corner keeps its position and UV. */
  lemma UnsharedKeepsCorners(d: MeshData)
    requires WellFormed(d)
    ensures WellFormed(Unshared(d)) && IsUnshared(Unshared(d))
    ensures CornerPositions(Unshared(d)) == CornerPositions(d)
    ensures CornerUVs(Unshared(d)) == CornerUVs(d)
  {
    var u := Unshared(d);
    assert TrianglesValid(u.vertices, u.triangles);
    assert forall i :: 0 <= i < |d.triangles| ==> CornerPositions(u)[i] == u.vertices[i];
  }

  /** Unsharing a mesh that is already unshared changes nothing; so a second rebuild is idempotent. */
  lemma UnsharedOfUnshared(d: MeshData)
    requires WellFormed(d) && IsUnshared(d)
    ensures Unshared(d) == d
  {
    var u := Unshared(d);
    assert u.vertices == d.vertices;
    assert u.uv == d.uv;
    assert u.triangles == d.triangles;
  }

  lemma UnsharedIdempotent(d: MeshData)
    requires WellFormed(d)
    ensures WellFormed(Unshared(d)) && Unshared(Unshared(d)) == Unshared(d)
  {
    UnsharedKeepsCorners(d);
    UnsharedOfUnshared(Unshared(d));
  }

  /** The loop of UnshareMeshVertices: three new buffers indexed by triangle corner. */
  method UnshareBuffers(vertices: array<Vec3>, uv: array<Vec2>, triangles: array<int>)
    returns (newVertices: array<Vec3>, newUV: array<Vec2>, newTriangles: array<int>)
    requires WellFormed(MeshData(vertices[..], uv[..], triangles[..]))
    ensures newVertices.Length == newUV.Length == newTriangles.Length == triangles.Length
    ensures forall i :: 0 <= i < triangles.Length ==>
      newTriangles[i] == i && newVertices[i] == vertices[triangles[i]] && newUV[i] == uv[triangles[i]]
  {
    var n := triangles.Length;
    newTriangles := new int[n];
    newVertices := new Vec3[n];
    newUV := new Vec2[n];
    for i := 0 to n
      invariant forall k :: 0 <= k < i ==>
        newTriangles[k] == k && newVertices[k] == vertices[triangles[k]] && newUV[k] == uv[triangles[k]]
    {
      newTriangles[i] := i;
      newVertices[i] := vertices[triangles[i]];
      newUV[i] := uv[triangles[i]];
    }
  }

  /** A Unity mesh: its buffers are replaced wholesale by assignment, never edited in place. */
  class Mesh {
    var vertices: array<Vec3>
    var uv: array<Vec2>
    var triangles: array<int>

    function Data(): MeshData
      reads this, vertices, uv, triangles
    {
      MeshData(vertices[..], uv[..], triangles[..])
    }

    ghost predicate Valid()
      reads this, vertices, uv, triangles
    {
      WellFormed(Data())
    }

    /** A mesh holding the given buffers. */
    constructor (d: MeshData)
      ensures Data() == d
      ensures fresh(vertices) && fresh(uv) && fresh(triangles)
    {
      vertices := new Vec3[|d.vertices|](i requires 0 <= i < |d.vertices| => d.vertices[i]);
      uv := new Vec2[|d.uv|](i requires 0 <= i < |d.uv| => d.uv[i]);
      triangles := new int[|d.triangles|](i requires 0 <= i < |d.triangles| => d.triangles[i]);
    }

    /**
     * `mesh.Clear()` followed by assigning the three buffers; Unity copies
     * arrays on assignment, so the mesh does not share them with the caller.
     */
    method SetBuffers(newVertices: array<Vec3>, newUV: array<Vec2>, newTriangles: array<int>)
      modifies this
      ensures Data() == old(MeshData(newVertices[..], newUV[..], newTriangles[..]))
      ensures fresh(vertices) && fresh(uv) && fresh(triangles)
    {
      vertices := new Vec3[newVertices.Length](i requires 0 <= i < newVertices.Length reads newVertices => newVertices[i]);
      uv := new Vec2[newUV.Length](i requires 0 <= i < newUV.Length reads newUV => newUV[i]);
      triangles := new int[newTriangles.Length](i requires 0 <= i < newTriangles.Length reads newTriangles => newTriangles[i]);
    }

    /** `mesh.uv = newUV`: only the UV buffer is replaced. */
    method SetUV(newUV: array<Vec2>)
      modifies this
      ensures uv[..] == old(newUV[..]) && fresh(uv)
      ensures vertices == old(vertices) && triangles == old(triangles)
    {
      uv := new Vec2[newUV.Length](i requires 0 <= i < newUV.Length reads newUV => newUV[i]);
    }

    /** `mesh.vertices = newVertices`: only the position buffer is replaced. */
    method SetVertices(newVertices: array<Vec3>)
      modifies this
      ensures vertices[..] == old(newVertices[..]) && fresh(vertices)
      ensures uv == old(uv) && triangles == old(triangles)
    {
      vertices := new Vec3[newVertices.Length](i requires 0 <= i < newVertices.Length reads newVertices => newVertices[i]);
    }

    /** `mesh.triangles = newTriangles`: only the triangle buffer is replaced. */
    method SetTriangles(newTriangles: array<int>)
      modifies this
      ensures triangles[..] == old(newTriangles[..]) && fresh(triangles)
      ensures vertices == old(vertices) && uv == old(uv)
    {
      triangles := new int[newTriangles.Length](i requires 0 <= i < newTriangles.Length reads newTriangles => newTriangles[i]);
    }

    /**
     * The raycast's triangle number `t` names a triangle of this mesh, whose
     * triangles are valid; the UV buffer plays no part (it may be empty).
     */
    ghost predicate HasTriangle(t: int)
      reads this, vertices, triangles
    {
      TrianglesValid(vertices[..], triangles[..]) && 0 <= t && 3 * t + 3 <= triangles.Length
    }
  }
}
