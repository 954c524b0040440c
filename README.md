# Tile Mesh Paint — a verified model

Tile Mesh Paint is a Unity editor window for texturing meshes from a sprite atlas:

- **Choosing a tile.** The user picks a sprite; the window records the sprite's UV centre and half extents.
- **Finding the quad.** The user hovers over the selected object in the scene view. The window casts a ray, takes the hit triangle and finds its longest edge. It then finds the first other triangle that contains both ends of that edge; the two triangles form the quad under the cursor.
- **Painting.** A left click or drag writes one UV per quad corner into the mesh's UV buffer. Each corner gets one of the tile's four corners, chosen by the signed angle between the corner's offset from the quad centre and the camera's up vector, then turned by a quarter-turn rotation option.
- **Copying a mesh first.** A mesh whose asset path is not a `.asset` file under `Assets`, such as an imported model or a built-in resource, is copied before it is edited. A mesh without an asset path lives only in the scene and is edited where it is.
- **Unsharing a mesh.** "Unshare vertices" rebuilds a mesh so that every triangle corner owns its own vertex record. After that, painting one quad never changes a neighbouring quad.

The Dafny modules follow that structure:

| module | contents |
|---|---|
| `Wrappers` | `Option` |
| `Geometry` | exact-real vectors, sums, centroids |
| `Meshes` | mesh buffers as values; the `Mesh` class whose buffers are replaced by assignment; the unshare rebuild |
| `QuadLocator` | longest edge and adjacent-triangle search, on values and as the source's loop over arrays |
| `UVProjector` | the angle buckets, the quarter-turn rotation, `GetUV`, the centre loop and the UV-buffer write |
| `Tiles` | the `SetTile` scan over a sprite's UVs |
| `AssetPaths` | `IsNotSaveableMesh` |
| `Editor` | the scene objects and the `TileMeshPaint` window class, whose methods update its fields as the source does |

Modelling choices:

- **Editor services as parameters.** The raycast result, the active selection, the mesh's asset path and the camera-dependent angle function are parameters. The transform's `TransformPoint` is an uninterpreted function held by each scene object (`GameObject.transformPoint`).
- **Angles.** The angle function is `ProjectOnPlane` followed by `SignedAngle`.
- **Components.** A scene object is one `GameObject` holding its MeshFilter mesh and its optional MeshCollider mesh.
- **Arithmetic.** It is exact real arithmetic. Edge lengths are compared squared, which orders them exactly as `Vector3.Distance` does.

## Model

| member | source | states |
|---|---|---|
| Meshes.Unshared | Assets/TileMeshPaint.cs:174-189 | the rebuilt mesh as a value; its meaning (well formed, unshared, every corner keeps its position and UV) is proved in `UnsharedKeepsCorners`, and the loop is tied to it by `UnshareBuffers` and `UnshareMeshVertices` |
| Meshes.UnshareBuffers | Assets/TileMeshPaint.cs:174-183 | the three new buffers are as long as the triangle buffer; corner `i` gets triangle index `i` and the position and UV of the vertex it used to name |
| Meshes.UnsharedKeepsCorners | Assets/TileMeshPaint.cs:174-189 | the rebuilt mesh is well formed and unshared, and every triangle corner keeps its position and its UV |
| Meshes.UnsharedOfUnshared | Assets/TileMeshPaint.cs:174-189 | rebuilding a mesh that is already unshared gives the same mesh back |
| Meshes.UnsharedIdempotent | Assets/TileMeshPaint.cs:159-197 | unsharing twice is the same as unsharing once |
| Meshes.Mesh.constructor | Assets/TileMeshPaint.cs:142 | the new mesh holds exactly the given buffers, in fresh arrays |
| Meshes.Mesh.SetBuffers | Assets/TileMeshPaint.cs:185-189 | after clearing and assigning, the mesh holds copies of the three new buffers and shares no array with the caller |
| Meshes.Mesh.SetUV | Assets/TileMeshPaint.cs:429 | only the UV buffer is replaced, by a copy of the new one; the positions and triangles stay |
| Editor.CopyMesh | Assets/TileMeshPaint.cs:140-157 | the copy is a fresh mesh with the original's buffers; the filter always points at it, and the collider only when the object has one; so afterwards filter and collider show the same mesh |
| Editor.TileMeshPaint.UnshareMeshVertices | Assets/TileMeshPaint.cs:159-197 | the selected object's mesh becomes `Unshared` of its old buffers. When the path is not saveable, a fresh copy is rebuilt and the original mesh is untouched; otherwise the object keeps its mesh |
| QuadLocator.LongestEdge | Assets/TileMeshPaint.cs:357-373 | the kept edge is at least as long as every edge, and strictly longer than every earlier one, so ties go to the first of 0-1, 1-2, 2-0 |
| QuadLocator.LongestEdgeEnds | Assets/TileMeshPaint.cs:357-373 | the two chained tests yield the local end positions of the edge that `LongestEdge` picks on world distances |
| QuadLocator.FirstAdjacentFrom | Assets/TileMeshPaint.cs:375-391 | the scan from offset `from` as a value; its meaning (the first adjacent triangle, or none) is proved in `FirstAdjacentIsFirst`, and the loop is tied to it by `LocateQuad` |
| QuadLocator.FirstAdjacentIsFirst | Assets/TileMeshPaint.cs:375-391 | a scan from offset `from` finds a triangle other than the hit one that has both edge ends among its corners, with no such triangle between `from` and it. When it finds nothing, no triangle at or after `from` matches |
| QuadLocator.AdjacentOffset | Assets/TileMeshPaint.cs:375-391 | a found neighbour is a triangle offset of the buffer and differs from the hit triangle |
| QuadLocator.Lookup | Assets/TileMeshPaint.cs:387-388 | a recorded quad has six indexes and six positions; all indexes name vertices; the first three are the hit triangle's corners |
| QuadLocator.LookupIsFirstMatch | Assets/TileMeshPaint.cs:357-391 | no quad means no triangle shares the longest edge. Otherwise the quad is built from the first triangle that does: its indexes, and its corner positions through `TransformPoint` |
| QuadLocator.LocateQuad | Assets/TileMeshPaint.cs:345-391 | the array loop returns both arrays or neither, and what it returns is `Lookup` of the mesh buffers at the hit offset |
| QuadLocator.FirstAdjacentSameCorners | Assets/TileMeshPaint.cs:385 | the match compares positions only, so two meshes with the same corner positions give the same scan result |
| QuadLocator.UnshareKeepsQuads | Assets/TileMeshPaint.cs:159-197 | unsharing a mesh does not change which triangle pairs with the hit one |
| QuadLocator.UnsharedQuadIndexesDistinct | Assets/TileMeshPaint.cs:387 | on an unshared mesh the six recorded indexes are the six corner offsets, pairwise distinct |
| Editor.TileMeshPaint.UpdateMouseOverInfo | Assets/TileMeshPaint.cs:324-392 | on a miss, a non-mesh collider, a collider without a mesh or an unselected object, everything is cleared. Otherwise the collider is recorded and the quad is `Lookup` at `triangleIndex * 3` (the same facts as `HitOwner`/`HitQuad`). The mesh's UV buffer plays no part and may be empty. A recorded quad belongs to the selection, and its indexes name vertices of the collider mesh |
| UVProjector.Quadrant | Assets/TileMeshPaint.cs:455-470 | each of the four buckets holds exactly its angle range, both ways: [0, 90), [-90, 0), [-180, -90) and all other angles |
| UVProjector.LastQuadrantInSignedAngleRange | Assets/TileMeshPaint.cs:451-470 | for the angles `SignedAngle` can return, (-180, 180], the last bucket is exactly [90, 180] |
| UVProjector.Rotate | Assets/TileMeshPaint.cs:472-473 | the quarter-turn rotation of a displacement; its meaning (the rotation matrix of the selected option, composition, four turns, length) is proved in `RotateIsRotationMatrix`, `RotateCompose`, `FourQuarterTurns` and `RotatePreservesLength` |
| UVProjector.RotateIsRotationMatrix | Assets/TileMeshPaint.cs:13 | for every rotation option, `Rotate` is the rotation matrix by that many degrees about the UV-plane normal, as in lines 472-473 |
| UVProjector.RotateCompose | Assets/TileMeshPaint.cs:472-473 | two quarter-turn rotations compose to the rotation by the sum of their indexes modulo 4 |
| UVProjector.FourQuarterTurns | Assets/TileMeshPaint.cs:472-473 | four 90° turns give back the displacement |
| UVProjector.RotatePreservesLength | Assets/TileMeshPaint.cs:472-473 | rotation keeps the squared length of the displacement |
| UVProjector.GetUV | Assets/TileMeshPaint.cs:445-475 | the UV for a corner direction's signed angle; its meaning is proved in `GetUVUnrotated`, `GetUVHalfTurn`, `GetUVQuarterTurnSquare`, `GetUVScales` and `RectangleTileCorners` |
| UVProjector.GetUVUnrotated | Assets/TileMeshPaint.cs:445-475 | with rotation 0 each angle bucket yields its own tile corner: centre ± half extents with the signs of that bucket |
| UVProjector.GetUVHalfTurn | Assets/TileMeshPaint.cs:445-475 | with the 180° option every bucket yields the diagonally opposite tile corner |
| UVProjector.GetUVQuarterTurnSquare | Assets/TileMeshPaint.cs:445-475 | on a square tile the 90° and 270° options move every bucket to the next or the previous tile corner |
| UVProjector.GetUVScales | Assets/TileMeshPaint.cs:445-475 | the UV offset from the tile centre scales linearly with the tile half-size |
| UVProjector.Overwrite | Assets/TileMeshPaint.cs:424-427 | applying the in-order writes keeps the buffer's length |
| UVProjector.OverwriteKeeps | Assets/TileMeshPaint.cs:424-427 | a UV slot that no index names keeps its old value |
| UVProjector.OverwriteLastWrite | Assets/TileMeshPaint.cs:424-427 | a slot holds the value of its last write |
| UVProjector.QuadCenter | Assets/TileMeshPaint.cs:415-422 | the accumulation loop returns the centroid of the quad's corner positions |
| Geometry.SumShift | Assets/TileMeshPaint.cs:415-426 | moving `n` points by `-c` moves their sum by `-n·c` |
| Geometry.DisplacementsBalance | Assets/TileMeshPaint.cs:415-426 | the corners' offsets from the quad centre sum to zero: the centre is the quad's balance point |
| UVProjector.PaintQuadUVs | Assets/TileMeshPaint.cs:411-427 | the new buffer is the old one with slot `indexes[i]` overwritten, in order, by `GetUV` of corner `i`'s offset from the quad centre |
| Editor.PaintWritesQuad | Assets/TileMeshPaint.cs:424-427 | on an unshared mesh, every corner of both quad triangles holds the UV computed for it |
| Editor.PaintKeepsOtherCorners | Assets/TileMeshPaint.cs:411-427 | on an unshared mesh, every corner outside the quad keeps its UV, so painting one quad leaves every other quad alone |
| Editor.TileMeshPaint.PaintMouseOverQuad | Assets/TileMeshPaint.cs:398-429 | the object's mesh gets the painted UV buffer and keeps its positions and triangles. With an unsaveable path the paint goes to a fresh copy and the original mesh is untouched; otherwise the object keeps its mesh |
| Editor.TileMeshPaint.HandleInput | Assets/TileMeshPaint.cs:394-438 | a left press or drag paints as above; any other event changes no mesh and needs no mesh on the filter; every event sets `shouldRepaint`; the object's invariants and a shared filter/collider mesh are kept |
| Editor.TileMeshPaint.OnSceneGUI | Assets/TileMeshPaint.cs:283-308 | a repaint changes nothing. Any other event records the owner and quad that `HitOwner`/`HitQuad` give for the hit before the event. Unless it is a left press or drag with no modifier keys over a found quad, the selection and its mesh stay. When it is, the quad belongs to the selection and the selection's mesh holds the painted UVs with its positions and triangles kept. With an unsaveable path the paint goes to a fresh copy that the collider follows, and the original mesh is untouched; otherwise the selection keeps its mesh. `shouldRepaint` is set exactly when `HandleInput` runs (not a repaint or layout event, no modifier keys, a quad found) and kept otherwise. Only the mouse-over fields and `shouldRepaint` of the window change, never the tile or the rotation. The selection keeps its invariants and one shared mesh |
| AssetPaths.IsNotSaveableMesh | Assets/TileMeshPaint.cs:440-443 | copy exactly when the path is non-empty and does not both begin with `Assets` and end with `.asset` |
| AssetPaths.SaveablePathLength | Assets/TileMeshPaint.cs:440-443 | a non-empty saveable path has at least twelve characters: the prefix and the suffix cannot overlap |
| AssetPaths.SaveableExamples | Assets/TileMeshPaint.cs:440-443 | a scene-only mesh and a `.asset` under `Assets` are edited in place; an imported model and a built-in resource are copied |
| Tiles.Min | Assets/TileMeshPaint.cs:205-233 | the running minimum is an element of the list and at most every element |
| Tiles.Max | Assets/TileMeshPaint.cs:205-233 | the running maximum is an element of the list and at least every element |
| Tiles.Extents | Assets/TileMeshPaint.cs:203-233 | the scan returns the UV sum and, on each axis, the extents: from the infinities for an empty sprite, otherwise the least and greatest coordinate |
| Tiles.TileHalfSize | Assets/TileMeshPaint.cs:237 | the half extents are never negative |
| Tiles.TileCenter | Assets/TileMeshPaint.cs:235 | the UV sum over four, as written; that this is the mean of a four-vertex sprite and a rectangle's midpoint is proved in `FourCornerCenter` and `RectangleTile` |
| Tiles.FourCornerCenter | Assets/TileMeshPaint.cs:235 | for a four-vertex sprite, the sum divided by four is the mean of the four UVs |
| Tiles.RectangleTile | Assets/TileMeshPaint.cs:235-237 | for a rectangular sprite, the centre is the rectangle's midpoint and the half-size is half its width and height |
| Tiles.RectangleTileCorners | Assets/TileMeshPaint.cs:445-475 | for a rectangular sprite, unrotated and half-turned paints write exactly the sprite's own corner UVs |
| Editor.TileMeshPaint.SetTile | Assets/TileMeshPaint.cs:199-238 | the window records the sprite, the centre as the UV sum over four, and the half extents, which are never negative |
| Editor.TileMeshPaint.OnSelectionChange | Assets/TileMeshPaint.cs:240-246 | the tile is forgotten and the centre and half-size are reset to zero |
| Editor.TileMeshPaint.Update | Assets/TileMeshPaint.cs:477-484 | a pending repaint is cleared |
| Editor.TileMeshPaint.OnBecameVisible | Assets/TileMeshPaint.cs:255-263 | becoming visible asks for a repaint |
| Editor.TileMeshPaint.UndoOrRedo | Assets/TileMeshPaint.cs:272-281 | the selected mesh gets its own buffers assigned back: fresh arrays with the same contents |
| Meshes.Mesh.SetVertices | Assets/TileMeshPaint.cs:277 | only the position buffer is replaced, by a copy of the new one |
| Meshes.Mesh.SetTriangles | Assets/TileMeshPaint.cs:279 | only the triangle buffer is replaced, by a copy of the new one |
| Editor.TileMeshPaint.constructor | Assets/TileMeshPaint.cs:7-18 | a new window has no tile, a zero tile centre and half-size, rotation option 0, no pending repaint and no quad under the cursor |

The source leaves `mouseOverMeshCollider` set after a lookup that finds no partner triangle, because it assigns the field at line 340 before the scan. `UpdateMouseOverInfo` does the same.

## Left out

- **Editor plumbing.** The window's GUI (`OnGUI`, `GetActiveTexture`, the sprite grid, the rotation popup, the buttons), `Draw` and the menu item (lines 22-110, 310-322) draw, read the selection's material and pass clicks on: to `SetTile` (lines 52, 64), `UnshareMeshVertices` (line 85) and `CreateMeshAsset` (line 90). The methods they call are modelled elsewhere, except `CreateMeshAsset`. The `tileCenter == Vector3.zero` auto-selection and the rotation popup's writes to `rotationIndex` in `OnGUI` are not modelled. `Update` (lines 477-484) is modelled for `shouldRepaint` only; its `SceneView.Repaint()` call is left out.
- **Asset persistence.** `CreateMeshAsset` (lines 112-132) opens a save-file dialog and writes an asset file. `MeshAssetAlreadyExists`, `AssetDatabase.SaveAssets`, `Undo.RecordObject` and the asset-path query are editor persistence and undo. They are omitted, and the asset path is a parameter.
- **Window lifecycle.** `OnDestroy` and `OnBecameInvisible` (lines 248-253, 265-270) only unregister callbacks and show the scene tools. `OnBecameVisible` (lines 255-263) is modelled for its `shouldRepaint = true` only; its callback registration and `Tools.hidden` are left out.
- **Raycasting and selection.** `Physics.Raycast`, `HandleUtility.GUIPointToWorldRay` and `Selection.activeGameObject` are engine queries. The raycast result and the selection are parameters.
- **Transforms and angles.** `Transform.TransformPoint` and the camera-dependent `ProjectOnPlane`/`SignedAngle` are parameters, not computed. `Quaternion.AngleAxis` is modelled only for the four quarter-turn options it is used with.
- **`RecalculateNormals`.** Normals are not part of the model.
- **Floats.** Floating point, infinities beyond the extents' starting values, NaN and Unity's approximate `Vector3 ==` are not modelled. Arithmetic and position comparison are exact.
- **`mesh.name`** is not part of the model.
- **String handling.** `StartsWith`/`EndsWith` are culture-sensitive in .NET and are modelled as ordinal. A null path is modelled as the empty string.
- **Rotation options.** They are modelled as integers; `int.Parse` of the option strings is left out.
- **`Repaint()` call.** OnSelectionChange's call to `Repaint()` only schedules drawing.
- **Editor.TileMeshPaint.SetTile:** requires a sprite with at least one UV. The source would store infinite half extents for a sprite without UVs. `Tiles.Extents` still models the infinite starting values.
- **Editor.TileMeshPaint.SetTile:** keeps `tileCenter` as a 2-vector. The source widens it to a `Vector3` with z = 0.
- **Editor.TileMeshPaint.OnSceneGUI:** requires the selected object's MeshFilter and MeshCollider to share one mesh, as they do after `CopyMesh`. In the source they could differ, and the painted indexes would then refer to another mesh.
- **Editor.TileMeshPaint.HandleInput:** on a paint event, requires the MeshFilter to have a mesh with one UV per vertex and the recorded indexes to be in range of its UV buffer. The source would throw otherwise. Unity keeps a mesh's UV buffer either empty or one per vertex, so this excludes only the throwing case.
- **Editor.TileMeshPaint.OnSceneGUI:** on a left press or drag with no modifier keys, requires the selection's collider mesh to have one UV per vertex. For a mesh without UVs the source throws at line 426 once a quad is found. It also requires the selection's `GameObject.Valid()`: a collider mesh only on an object with a MeshCollider, which Unity guarantees.
- **Editor.TileMeshPaint.UnshareMeshVertices:** requires a selection whose MeshFilter has a well-formed mesh with one UV per vertex. The source throws when nothing is selected (line 161), when the object has no MeshFilter or mesh (lines 161-165), and when a mesh with triangles has no UVs (line 182). The button at line 83 guards only on a textured MeshRenderer.
- **Editor.TileMeshPaint.UndoOrRedo:** requires a selected object to have a MeshFilter with a mesh; the source throws otherwise (line 276).
- **Editor.TileMeshPaint.UpdateMouseOverInfo:** requires the raycast's triangle index to name a triangle of the collider mesh; the source throws otherwise (for example on a convex MeshCollider, where Unity reports triangle index -1 and line 349 reads `triangles[-3]`).
