/**
 * The editor window's state and event handling (Assets/TileMeshPaint.cs, class
 * TileMeshPaint), with the scene objects it edits.
 */
module Editor {
  import opened Wrappers
  import opened Geometry
  import opened Meshes
  import opened QuadLocator
  import opened UVProjector
  import opened Tiles
  import opened AssetPaths

  /**
   * A scene object with its MeshFilter (`filterMesh`), possibly a MeshCollider
   * (`hasMeshCollider`, `colliderMesh`) and its transform's `TransformPoint`.
   */
  class GameObject {
    var filterMesh: Mesh?
    var hasMeshCollider: bool
    var colliderMesh: Mesh?
    const transformPoint: Vec3 -> Vec3

    constructor (filterMesh: Mesh?, hasMeshCollider: bool, colliderMesh: Mesh?, transformPoint: Vec3 -> Vec3)
      ensures this.filterMesh == filterMesh && this.hasMeshCollider == hasMeshCollider
      ensures this.colliderMesh == colliderMesh && this.transformPoint == transformPoint
    {
      this.filterMesh := filterMesh;
      this.hasMeshCollider := hasMeshCollider;
      this.colliderMesh := colliderMesh;
      this.transformPoint := transformPoint;
    }

    /** Only an object that has a MeshCollider can have a collider mesh. */
    ghost predicate Valid()
      reads this
    {
      colliderMesh != null ==> hasMeshCollider
    }

    /** The MeshFilter and the MeshCollider show the same mesh, as after the tool has copied it. */
    ghost predicate SharesMesh()
      reads this
    {
      colliderMesh != null ==> filterMesh == colliderMesh
    }
  }

  /**
   * What `Physics.Raycast` reports: `meshCollider` is the object whose
   * MeshCollider was hit (null when the collider hit is of another kind).
   */
  datatype RaycastHit = RaycastHit(meshCollider: GameObject?, triangleIndex: int)

  /** The raycast names a triangle of the collider mesh it hit, as the physics engine guarantees. */
  ghost predicate HitIsTriangle(hit: Option<RaycastHit>)
    reads HitFrame(hit)
  {
    hit.Some? && hit.value.meshCollider != null && hit.value.meshCollider.colliderMesh != null ==>
      hit.value.meshCollider.colliderMesh.HasTriangle(hit.value.triangleIndex)
  }

  /** The objects a hit's mouse-over lookup reads: the object, its collider mesh and that mesh's buffers. */
  ghost function HitFrame(hit: Option<RaycastHit>): set<object>
    reads if hit.Some? && hit.value.meshCollider != null then HitObjects(hit.value.meshCollider) else {}
  {
    if hit.None? || hit.value.meshCollider == null then {}
    else
      var go: GameObject := hit.value.meshCollider;
      var m := go.colliderMesh;
      HitObjects(go) + if m == null then {} else {m.vertices, m.triangles}
  }

  /** An object and its collider mesh, when it has one. */
  ghost function HitObjects(go: GameObject): set<object>
    reads go
  {
    if go.colliderMesh == null then {go} else {go, go.colliderMesh}
  }

  /** The object a hit records as under the cursor: the selection, when its collider mesh was hit; null otherwise. */
  ghost function HitOwner(hit: Option<RaycastHit>, selection: GameObject?): GameObject?
    reads HitFrame(hit)
  {
    if hit.None? then null
    else
      var go := hit.value.meshCollider;
      if go == null || go.colliderMesh == null || selection != go then null else go
  }

  /** The quad a hit records: the lookup at the hit triangle when the hit has an owner, nothing otherwise. */
  ghost function HitQuad(hit: Option<RaycastHit>, selection: GameObject?): Option<(seq<int>, seq<Vec3>)>
    requires HitIsTriangle(hit)
    reads HitFrame(hit)
  {
    var go := HitOwner(hit, selection);
    if go == null then None
    else
      var m := go.colliderMesh;
      Lookup(m.vertices[..], m.triangles[..], go.transformPoint, hit.value.triangleIndex * 3)
  }

  datatype EventType = MouseDown | MouseUp | MouseMove | MouseDrag | Repaint | Layout | Other

  datatype Event = Event(kind: EventType, button: int, noModifiers: bool)

  /** Only a press or drag of the left button paints. */
  predicate IsPaintEvent(e: Event)
  {
    (e.kind == MouseDown || e.kind == MouseDrag) && e.button == 0
  }

  /**
   * `Mesh.Instantiate` followed by redirecting the filter and, when there is
   * one, the collider: the same buffers under a new mesh identity.
   */
  method CopyMesh(go: GameObject) returns (mesh: Mesh)
    requires go.filterMesh != null
    modifies go
    ensures fresh(mesh) && fresh(mesh.vertices) && fresh(mesh.uv) && fresh(mesh.triangles)
    ensures mesh.Data() == old(go.filterMesh.Data())
    ensures go.filterMesh == mesh && go.hasMeshCollider == old(go.hasMeshCollider)
    ensures go.colliderMesh == if go.hasMeshCollider then mesh else old(go.colliderMesh)
    ensures old(go.Valid()) ==> go.Valid() && go.SharesMesh()
  {
    mesh := new Mesh(go.filterMesh.Data());
    go.filterMesh := mesh;
    if go.hasMeshCollider {
      go.colliderMesh := mesh;
    }
  }

  /** On an unshared mesh the paint reaches every corner of both triangles of the quad. */
  lemma PaintWritesQuad(d: MeshData, hit: int, t: int, vals: seq<Vec2>)
    requires WellFormed(d) && IsUnshared(d)
    requires IsTriangleOffset(d.triangles, hit) && IsTriangleOffset(d.triangles, t) && t != hit
    requires |vals| == 6
    ensures var uv := Overwrite(d.uv, QuadIndexes(d.triangles, hit, t), vals);
      (forall k :: hit <= k < hit + 3 ==> uv[d.triangles[k]] == vals[k - hit]) &&
      (forall k :: t <= k < t + 3 ==> uv[d.triangles[k]] == vals[3 + k - t])
  {
    var idx := QuadIndexes(d.triangles, hit, t);
    UnsharedQuadIndexesDistinct(d, hit, t);
    var uv := Overwrite(d.uv, idx, vals);
    assert forall i :: 0 <= i < 6 ==> LastWrite(idx, i);
    forall k | hit <= k < hit + 3
      ensures uv[d.triangles[k]] == vals[k - hit]
    {
      OverwriteLastWrite(d.uv, idx, vals, k - hit);
      assert idx[k - hit] == k == d.triangles[k];
    }
    forall k | t <= k < t + 3
      ensures uv[d.triangles[k]] == vals[3 + k - t]
    {
      OverwriteLastWrite(d.uv, idx, vals, 3 + k - t);
      assert idx[3 + k - t] == k == d.triangles[k];
    }
  }

  /** On an unshared mesh the paint leaves the UV of every corner outside the quad as it was. */
  lemma PaintKeepsOtherCorners(d: MeshData, hit: int, t: int, vals: seq<Vec2>)
    requires WellFormed(d) && IsUnshared(d)
    requires IsTriangleOffset(d.triangles, hit) && IsTriangleOffset(d.triangles, t) && t != hit
    requires |vals| == 6
    ensures var uv := Overwrite(d.uv, QuadIndexes(d.triangles, hit, t), vals);
      forall k :: 0 <= k < |d.triangles| && !(hit <= k < hit + 3) && !(t <= k < t + 3) ==>
        uv[d.triangles[k]] == d.uv[d.triangles[k]]
  {
    var idx := QuadIndexes(d.triangles, hit, t);
    UnsharedQuadIndexesDistinct(d, hit, t);
    var uv := Overwrite(d.uv, idx, vals);
    forall k | 0 <= k < |d.triangles| && !(hit <= k < hit + 3) && !(t <= k < t + 3)
      ensures uv[d.triangles[k]] == d.uv[d.triangles[k]]
    {
      assert d.triangles[k] == k && k !in idx;
      OverwriteKeeps(d.uv, idx, vals, k);
    }
  }

  class TileMeshPaint {
    var shouldRepaint: bool

    var tile: Option<Sprite>
    var tileCenter: Vec2
    var tileHalfSize: Vec2

    var rotationIndex: int

    var mouseOverMeshCollider: GameObject?
    var mouseOverIndexes: array?<int>
    var mouseOverQuad: array?<Vec3>

    /** The popup keeps a valid rotation, and a located quad always has six corners and an owner. */
    ghost predicate Valid()
      reads this
    {
      0 <= rotationIndex < |RotationOptions| &&
      (mouseOverIndexes == null <==> mouseOverQuad == null) &&
      (mouseOverQuad != null ==>
        mouseOverIndexes.Length == 6 && mouseOverQuad.Length == 6 && mouseOverMeshCollider != null)
    }

    /** The recorded quad: its six indexes and six world positions, or nothing. */
    function MouseOver(): Option<(seq<int>, seq<Vec3>)>
      reads this`mouseOverIndexes, this`mouseOverQuad, mouseOverIndexes, mouseOverQuad
    {
      if mouseOverIndexes == null || mouseOverQuad == null then None
      else Some((mouseOverIndexes[..], mouseOverQuad[..]))
    }

    constructor ()
      ensures Valid() && !shouldRepaint && tile == None && rotationIndex == 0
      ensures tileCenter == Zero2 && tileHalfSize == Zero2
      ensures mouseOverMeshCollider == null && mouseOverIndexes == null && mouseOverQuad == null
    {
      shouldRepaint := false;
      tile := None;
      tileCenter := Zero2;
      tileHalfSize := Zero2;
      rotationIndex := 0;
      mouseOverMeshCollider := null;
      mouseOverIndexes := null;
      mouseOverQuad := null;
    }

    /** Selecting a tile records the sprite, its mean UV (sum over four) and its half extents. */
    method SetTile(s: Sprite)
      requires Valid() && |s.uv| > 0
      modifies this`tile, this`tileCenter, this`tileHalfSize
      ensures Valid() && tile == Some(s)
      ensures tileCenter == TileCenter(s.uv) && tileHalfSize == TileHalfSize(s.uv)
      ensures tileHalfSize.x >= 0.0 && tileHalfSize.y >= 0.0
    {
      tile := Some(s);
      var c, minX, maxX, minY, maxY := Extents(s.uv);
      tileCenter := Div2(c, 4.0);
      tileHalfSize := Vec2((maxX.value - minX.value) / 2.0, (maxY.value - minY.value) / 2.0);
    }

    /** A new selection forgets the tile. */
    method OnSelectionChange()
      modifies this`tile, this`tileCenter, this`tileHalfSize
      ensures tile == None && tileCenter == Zero2 && tileHalfSize == Zero2
    {
      tile := None;
      tileCenter := Zero2;
      tileHalfSize := Zero2;
    }

    /**
     * Rebuilds the selected object's mesh so that every triangle corner owns
     * its vertex; a mesh that cannot be saved in place is copied first.
     */
    method UnshareMeshVertices(selection: GameObject, path: string)
      requires selection.filterMesh != null && selection.filterMesh.Valid()
      modifies selection, selection.filterMesh
      ensures selection.filterMesh != null && selection.filterMesh.Valid()
      ensures selection.filterMesh.Data() == Unshared(old(selection.filterMesh.Data()))
      ensures IsNotSaveableMesh(path) ==>
        fresh(selection.filterMesh) && unchanged(old(selection.filterMesh)) &&
        selection.colliderMesh == if selection.hasMeshCollider then selection.filterMesh else old(selection.colliderMesh)
      ensures !IsNotSaveableMesh(path) ==> selection.filterMesh == old(selection.filterMesh) && unchanged(selection)
    {
      ghost var before := selection.filterMesh.Data();
      var mesh := selection.filterMesh;
      if IsNotSaveableMesh(path) {
        mesh := CopyMesh(selection);
      }
      var newVertices, newUV, newTriangles := UnshareBuffers(mesh.vertices, mesh.uv, mesh.triangles);
      mesh.SetBuffers(newVertices, newUV, newTriangles);
      assert mesh.Data().vertices == Unshared(before).vertices;
      assert mesh.Data().uv == Unshared(before).uv;
      assert mesh.Data().triangles == Unshared(before).triangles;
      UnsharedKeepsCorners(before);
    }

    /**
     * Forgets the previous quad, then records the quad under the cursor when
     * the ray hits the selected object's MeshCollider and the hit triangle's
     * longest edge is shared with another triangle.
     */
    method UpdateMouseOverInfo(hit: Option<RaycastHit>, selection: GameObject?)
      requires Valid()
      requires hit.Some? && hit.value.meshCollider != null && hit.value.meshCollider.colliderMesh != null ==>
        hit.value.meshCollider.colliderMesh.HasTriangle(hit.value.triangleIndex)
      modifies this`mouseOverMeshCollider, this`mouseOverIndexes, this`mouseOverQuad
      ensures Valid()
      ensures var go := if hit.Some? then hit.value.meshCollider else null;
        if go == null || go.colliderMesh == null || selection != go then
          mouseOverMeshCollider == null && mouseOverIndexes == null && mouseOverQuad == null
        else
          var m := go.colliderMesh;
          var offset := hit.value.triangleIndex * 3;
          mouseOverMeshCollider == go &&
          IsTriangleOffset(m.triangles[..], offset) &&
          MouseOver() == Lookup(m.vertices[..], m.triangles[..], go.transformPoint, offset)
      ensures HitIsTriangle(hit) ==>
        mouseOverMeshCollider == HitOwner(hit, selection) && MouseOver() == HitQuad(hit, selection)
      ensures mouseOverQuad != null ==>
        selection != null && mouseOverMeshCollider == selection &&
        selection.colliderMesh != null &&
        TrianglesValid(selection.colliderMesh.vertices[..], selection.colliderMesh.triangles[..]) &&
        IndicesBelow(mouseOverIndexes[..], selection.colliderMesh.vertices.Length)
    {
      mouseOverMeshCollider := null;
      mouseOverIndexes := null;
      mouseOverQuad := null;

      if hit.None? {
        return;
      }
      var meshCollider := hit.value.meshCollider;
      if meshCollider == null || meshCollider.colliderMesh == null || selection != meshCollider {
        return;
      }
      mouseOverMeshCollider := meshCollider;

      var mesh := meshCollider.colliderMesh;
      var triangleIndex := hit.value.triangleIndex * 3;
      mouseOverIndexes, mouseOverQuad := LocateQuad(mesh.vertices, mesh.triangles, meshCollider.transformPoint, triangleIndex);
    }

    /**
     * The paint step of HandleInput: writes the UVs of the recorded quad into
     * the object's mesh, copying the mesh first when it cannot be saved in place.
     */
    method PaintMouseOverQuad(path: string, angleOf: Vec3 -> real)
      requires Valid() && mouseOverQuad != null
      requires mouseOverMeshCollider.filterMesh != null && mouseOverMeshCollider.filterMesh.Valid()
      requires IndicesBelow(mouseOverIndexes[..], mouseOverMeshCollider.filterMesh.uv.Length)
      modifies mouseOverMeshCollider, mouseOverMeshCollider.filterMesh
      ensures var go, m := mouseOverMeshCollider, old(mouseOverMeshCollider.filterMesh);
        go.filterMesh != null && go.filterMesh.Valid() &&
        go.filterMesh.uv[..] == Overwrite(old(m.uv[..]), mouseOverIndexes[..],
          QuadUVs(mouseOverQuad[..], angleOf, tileCenter, tileHalfSize, rotationIndex)) &&
        go.filterMesh.vertices[..] == old(m.vertices[..]) &&
        go.filterMesh.triangles[..] == old(m.triangles[..])
      ensures var go := mouseOverMeshCollider;
        old(go.Valid()) ==> go.Valid() && (old(go.SharesMesh()) ==> go.SharesMesh())
      ensures var go, m := mouseOverMeshCollider, old(mouseOverMeshCollider.filterMesh);
        if IsNotSaveableMesh(path) then
          fresh(go.filterMesh) && unchanged(m) &&
          go.colliderMesh == if go.hasMeshCollider then go.filterMesh else old(go.colliderMesh)
        else
          unchanged(go) && go.filterMesh == m
    {
      var go := mouseOverMeshCollider;
      var mesh := go.filterMesh;
      if IsNotSaveableMesh(path) {
        mesh := CopyMesh(go);
      }
      var uv := PaintQuadUVs(mesh.uv, mouseOverIndexes, mouseOverQuad, angleOf, tileCenter, tileHalfSize, rotationIndex);
      assert mouseOverIndexes[..mouseOverQuad.Length] == mouseOverIndexes[..];
      mesh.SetUV(uv);
    }

    /** On a left press or drag, paints the recorded quad; every event asks for a repaint. */
    method HandleInput(ev: Event, path: string, angleOf: Vec3 -> real)
      requires Valid() && mouseOverQuad != null
      requires IsPaintEvent(ev) ==>
        mouseOverMeshCollider.filterMesh != null && mouseOverMeshCollider.filterMesh.Valid() &&
        IndicesBelow(mouseOverIndexes[..], mouseOverMeshCollider.filterMesh.uv.Length)
      modifies this`shouldRepaint, mouseOverMeshCollider, mouseOverMeshCollider.filterMesh
      ensures Valid() && shouldRepaint
      ensures var go := mouseOverMeshCollider;
        old(go.Valid()) ==> go.Valid() && (old(go.SharesMesh()) ==> go.SharesMesh())
      ensures var go, m := mouseOverMeshCollider, old(mouseOverMeshCollider.filterMesh);
        if !IsPaintEvent(ev) then
          unchanged(go) && (m != null ==> unchanged(m))
        else
          go.filterMesh != null && go.filterMesh.Valid() &&
          go.filterMesh.uv[..] == Overwrite(old(m.uv[..]), mouseOverIndexes[..],
            QuadUVs(mouseOverQuad[..], angleOf, tileCenter, tileHalfSize, rotationIndex)) &&
          go.filterMesh.vertices[..] == old(m.vertices[..]) &&
          go.filterMesh.triangles[..] == old(m.triangles[..]) &&
          (IsNotSaveableMesh(path) ==>
            fresh(go.filterMesh) && unchanged(m) &&
            go.colliderMesh == if go.hasMeshCollider then go.filterMesh else old(go.colliderMesh)) &&
          (!IsNotSaveableMesh(path) ==> unchanged(go) && go.filterMesh == m)
    {
      if IsPaintEvent(ev) {
        PaintMouseOverQuad(path, angleOf);
      }
      shouldRepaint := true;
    }

    /**
     * The scene view callback: a repaint only draws; any other event updates
     * the quad under the cursor and, without modifier keys and over a quad,
     * is handled as input (a layout event only claims the default control).
     */
    method OnSceneGUI(ev: Event, hit: Option<RaycastHit>, selection: GameObject?, path: string, angleOf: Vec3 -> real)
      requires Valid() && HitIsTriangle(hit)
      requires selection != null ==> selection.Valid() && selection.SharesMesh()
      requires IsPaintEvent(ev) && ev.noModifiers && selection != null && selection.colliderMesh != null ==>
        selection.colliderMesh.uv.Length == selection.colliderMesh.vertices.Length
      modifies this`mouseOverMeshCollider, this`mouseOverIndexes, this`mouseOverQuad, this`shouldRepaint
      modifies selection, if selection == null then null else selection.filterMesh
      ensures Valid()
      ensures ev.kind == Repaint ==> unchanged(this)
      ensures ev.kind != Repaint ==>
        mouseOverMeshCollider == old(HitOwner(hit, selection)) && MouseOver() == old(HitQuad(hit, selection))
      ensures selection != null ==> selection.Valid() && selection.SharesMesh()
      ensures !(IsPaintEvent(ev) && ev.noModifiers && mouseOverQuad != null) && selection != null ==>
        unchanged(selection) && (selection.filterMesh != null ==> unchanged(selection.filterMesh))
      ensures IsPaintEvent(ev) && ev.noModifiers && mouseOverQuad != null ==>
        mouseOverMeshCollider == selection && selection != null &&
        var m := old(selection.filterMesh);
        selection.filterMesh != null && m != null &&
        IndicesBelow(mouseOverIndexes[..], old(m.uv.Length)) &&
        selection.filterMesh.uv[..] == Overwrite(old(m.uv[..]), mouseOverIndexes[..],
          QuadUVs(mouseOverQuad[..], angleOf, tileCenter, tileHalfSize, rotationIndex)) &&
        selection.filterMesh.vertices[..] == old(m.vertices[..]) &&
        selection.filterMesh.triangles[..] == old(m.triangles[..])
      ensures IsPaintEvent(ev) && ev.noModifiers && mouseOverQuad != null && selection != null ==>
        var m := old(selection.filterMesh);
        if IsNotSaveableMesh(path) then
          fresh(selection.filterMesh) && (m != null ==> unchanged(m)) &&
          selection.colliderMesh == if selection.hasMeshCollider then selection.filterMesh else old(selection.colliderMesh)
        else
          unchanged(selection) && selection.filterMesh == m
      ensures if ev.kind != Repaint && ev.kind != Layout && ev.noModifiers && mouseOverQuad != null
        then shouldRepaint else shouldRepaint == old(shouldRepaint)
    {
      if ev.kind == Repaint {
        return;
      }
      ghost var owner, quad := HitOwner(hit, selection), HitQuad(hit, selection);
      UpdateMouseOverInfo(hit, selection);
      assert mouseOverMeshCollider == owner && MouseOver() == quad;
      assert selection != null ==> unchanged(selection) && (selection.filterMesh != null ==> unchanged(selection.filterMesh));
      if ev.noModifiers && mouseOverQuad != null {
        if ev.kind != Layout {
          assert selection.filterMesh == selection.colliderMesh;
          HandleInput(ev, path, angleOf);
        }
      }
    }

    /** A pending repaint is carried out and cleared. */
    method Update()
      modifies this`shouldRepaint
      ensures !shouldRepaint
    {
      if shouldRepaint {
        shouldRepaint := false;
      }
    }

    /** Becoming visible asks for a repaint; the callback registrations are not modelled. */
    method OnBecameVisible()
      modifies this`shouldRepaint
      ensures shouldRepaint
    {
      shouldRepaint := true;
    }

    /**
     * After an undo or redo, the selected object's mesh gets its own buffers
     * assigned back, so Unity refreshes it: the contents stay as they are.
     */
    method UndoOrRedo(selection: GameObject?)
      requires selection != null ==> selection.filterMesh != null
      modifies if selection == null then null else selection.filterMesh
      ensures selection != null ==>
        selection.filterMesh.Data() == old(selection.filterMesh.Data()) &&
        fresh(selection.filterMesh.vertices) && fresh(selection.filterMesh.uv) && fresh(selection.filterMesh.triangles)
    {
      if selection != null {
        var mesh := selection.filterMesh;
        mesh.SetVertices(mesh.vertices);
        mesh.SetUV(mesh.uv);
        mesh.SetTriangles(mesh.triangles);
      }
    }
  }
}
