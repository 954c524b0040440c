/**
 * Whether the mesh has to be copied before it is edited
 * (Assets/TileMeshPaint.cs, IsNotSaveableMesh).
 */
module AssetPaths {

  /** `s.StartsWith(prefix)` with ordinal character comparison. */
  predicate StartsWith(s: string, prefix: string)
  {
    prefix <= s
  }

  /** `s.EndsWith(suffix)` with ordinal character comparison. */
  predicate EndsWith(s: string, suffix: string)
  {
    |suffix| <= |s| && s[|s| - |suffix|..] == suffix
  }

  /**
   * A mesh must be copied when it has an asset path that is not a `.asset`
   * file under `Assets` (an imported model, a built-in resource). A mesh with
   * no asset path lives only in the scene and is edited where it is.
   */
  function IsNotSaveableMesh(path: string): (r: bool)
    ensures r <==> (|path| > 0 &&
      !(|path| >= 6 && (forall i :: 0 <= i < 6 ==> path[i] == "Assets"[i]) &&
        (forall i :: 0 <= i < 6 ==> path[|path| - 6 + i] == ".asset"[i])))
  {
    path != "" && (!StartsWith(path, "Assets") || !EndsWith(path, ".asset"))
  }

  /** The prefix and the suffix cannot overlap, so a saveable path has at least twelve characters. */
  lemma SaveablePathLength(path: string)
    requires path != "" && !IsNotSaveableMesh(path)
    ensures |path| >= 12
  {
    var n := |path|;
    assert path[n - 6] == '.';
    assert forall k :: 0 <= k < 6 ==> path[k] == "Assets"[k] != '.';
  }

  lemma SaveableExamples()
    ensures !IsNotSaveableMesh("")
    ensures !IsNotSaveableMesh("Assets/Meshes/Floor.asset")
    ensures IsNotSaveableMesh("Assets/Models/Floor.fbx")
    ensures IsNotSaveableMesh("Library/unity default resources")
  {
    assert "Assets" <= "Assets/Meshes/Floor.asset";
    assert "Library/unity default resources"[0] != "Assets"[0];
  }
}
