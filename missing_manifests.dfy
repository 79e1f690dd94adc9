/** The report of the master script: the pack folders that have no
    `manifest.json` and so are not recognised by the game. */
module AddonManager {
  import opened PackFs
  import opened NameOrder
  import opened ManifestScan

  /** Folder `n` of `dir` has no manifest. */
  predicate LacksManifest(dir: Listing, n: string)
  {
    n in dir && dir[n] == Dir(Missing)
  }

  /** The names among `names` that are folders without a manifest, in
      order. */
  function WithoutManifest(names: seq<string>, dir: Listing): seq<string>
  {
    if names == [] then []
    else
      var rest := WithoutManifest(names[..|names| - 1], dir);
      var last := names[|names| - 1];
      if LacksManifest(dir, last) then rest + [last] else rest
  }

  /** Every folder of `dir` without a manifest. */
  function MissingNames(dir: Listing): set<string>
  {
    set n | n in dir && dir[n] == Dir(Missing)
  }

  /** What `find_folders_without_manifest` returns for a directory that may
      be absent. */
  ghost function MissingIn(packsDir: Option<Listing>): seq<string>
  {
    match packsDir
    case None => []
    case Some(dir) => WithoutManifest(SortedKeys(dir.Keys), dir)
  }

  lemma {:induction false} WithoutManifestExact(names: seq<string>, dir: Listing)
    ensures forall n :: n in WithoutManifest(names, dir) <==> n in names && LacksManifest(dir, n)
    ensures StrictlySorted(names) ==> StrictlySorted(WithoutManifest(names, dir))
  {
    if names != [] {
      var init := names[..|names| - 1];
      var last := names[|names| - 1];
      var rest := WithoutManifest(init, dir);
      WithoutManifestExact(init, dir);
      assert names == init + [last];
      if StrictlySorted(names) {
        assert StrictlySorted(init);
        if LacksManifest(dir, last) {
          var r := rest + [last];
          forall i, j | 0 <= i < j < |r| ensures Below(r[i], r[j]) {
            if j == |rest| {
              assert r[i] in init;
              var k :| 0 <= k < |init| && init[k] == r[i];
              assert names[k] == r[i];
            }
          }
        }
      }
    }
  }

  /** The listing of a directory: exactly its folders that lack a manifest
      (plain files never appear), each once, in sorted order; an absent
      directory gives the empty list. */
  lemma MissingListExact(packsDir: Option<Listing>)
    ensures packsDir.None? ==> MissingIn(packsDir) == []
    ensures packsDir.Some? ==>
      var r := MissingIn(packsDir);
      (forall n :: n in r <==> LacksManifest(packsDir.value, n)) &&
      StrictlySorted(r) && |r| == |MissingNames(packsDir.value)|
  {
    if packsDir.Some? {
      var dir := packsDir.value;
      var r := MissingIn(packsDir);
      WithoutManifestExact(SortedKeys(dir.Keys), dir);
      SortedCount(r);
      assert (set x | x in r) == MissingNames(dir);
    }
  }

  /** The folders a manifest scan of the same names logs as having no
      `manifest.json`, in order. */
  function NoManifestFolders(log: seq<LogLine>): seq<string>
  {
    if log == [] then []
    else
      var rest := NoManifestFolders(log[..|log| - 1]);
      var last := log[|log| - 1];
      if last.verdict == NoManifest then rest + [last.folder] else rest
  }

  /** The report lists exactly the folders that the scan skips for a missing
      manifest, in the same order. */
  lemma {:induction false} ReportMatchesScan(names: seq<string>, dir: Listing)
    ensures WithoutManifest(names, dir) == NoManifestFolders(Scan(names, dir).log)
  {
    if names != [] {
      var init := names[..|names| - 1];
      var last := names[|names| - 1];
      var st := Scan(init, dir);
      ReportMatchesScan(init, dir);
      if last in dir && dir[last].Dir? {
        var log := st.log + [LogLine(last, Judge(dir[last].manifest, st.seen))];
        assert Scan(names, dir).log == log;
        assert log[..|log| - 1] == st.log;
      }
    }
  }

  /** `find_folders_without_manifest`: nothing for an absent directory;
      otherwise the sorted listing, passing over plain files and keeping the
      folders without a manifest. */
  method FindFoldersWithoutManifest(packsDir: Option<Listing>) returns (folders: seq<string>)
    ensures folders == MissingIn(packsDir)
  {
    folders := [];
    if packsDir.None? {
      return;
    }
    var dir := packsDir.value;
    var names := SortNames(dir.Keys);
    folders := CollectWithoutManifest(names, dir);
  }

  /** The loop of `find_folders_without_manifest` over the listed names. */
  method CollectWithoutManifest(names: seq<string>, dir: Listing) returns (folders: seq<string>)
    requires forall i :: 0 <= i < |names| ==> names[i] in dir
    ensures folders == WithoutManifest(names, dir)
  {
    folders := [];
    for i := 0 to |names|
      invariant folders == WithoutManifest(names[..i], dir)
    {
      assert names[..i + 1][..i] == names[..i];
      var folder := names[i];
      if dir[folder].File? {
        continue;
      }
      if dir[folder].manifest.Missing? {
        folders := folders + [folder];
      }
    }
    assert names[..|names|] == names;
  }

  /** The `missing` dict: the lists for the behaviour and resource
      directories. */
  datatype MissingReport = MissingReport(behavior: seq<string>, resource: seq<string>)

  function TotalMissing(m: MissingReport): nat
  {
    |m.behavior| + |m.resource|
  }

  function MissingCount(packsDir: Option<Listing>): nat
  {
    match packsDir
    case None => 0
    case Some(dir) => |MissingNames(dir)|
  }

  /** `report_missing_manifests`: both lists. */
  method ReportMissingManifests(behaviorDir: Option<Listing>, resourceDir: Option<Listing>)
    returns (missing: MissingReport)
    ensures missing == MissingReport(MissingIn(behaviorDir), MissingIn(resourceDir))
  {
    var behavior := FindFoldersWithoutManifest(behaviorDir);
    var resource := FindFoldersWithoutManifest(resourceDir);
    missing := MissingReport(behavior, resource);
  }

  /** `total_missing` counts every folder without a manifest in the two
      directories once, so it is zero exactly when every folder of both has
      one. */
  lemma TotalMissingCounts(behaviorDir: Option<Listing>, resourceDir: Option<Listing>)
    ensures var m := MissingReport(MissingIn(behaviorDir), MissingIn(resourceDir));
      TotalMissing(m) == MissingCount(behaviorDir) + MissingCount(resourceDir) &&
      (TotalMissing(m) == 0 <==>
         (behaviorDir.Some? ==> MissingNames(behaviorDir.value) == {}) &&
         (resourceDir.Some? ==> MissingNames(resourceDir.value) == {}))
  {
    MissingListExact(behaviorDir);
    MissingListExact(resourceDir);
  }
}
