/** The stand-alone `.mcpack` extractor. Its detection, renaming, moving and
    unpacking are copies of the combined extractor's, and are the same
    members here; what it has of its own is a `process_mcpack` with the
    routing written inline, and the totals loop of its entry point. */
module McpackExtractor {
  import opened PackFs
  import opened Classifier
  import opened Relocation
  import opened AddonExtractor

  /** The summary the extractor prints. */
  datatype McpackTotals = McpackTotals(mcpacksProcessed: nat, counts: Counts)

  /** `process_mcpack`, with the role choice, the move and the counters
      inline. */
  method ProcessMcpack(a: Archive, behaviorDir: Directory, resourceDir: Directory, d: Decider)
    returns (stats: Stats)
    requires behaviorDir != resourceDir
    modifies behaviorDir, resourceDir
    ensures fresh(stats)
    ensures Effect(PackDirs(behaviorDir.entries, resourceDir.entries), stats.Value())
            == ArchiveEffect(Mcpack, a, old(PackDirs(behaviorDir.entries, resourceDir.entries)), d)
  {
    stats := new Stats();
    var extracted := ExtractMcpack(a);
    if extracted.None? {
      stats.errors := stats.errors + 1;
      return;
    }
    var folder := extracted.value;
    ghost var dirs0 := PackDirs(behaviorDir.entries, resourceDir.entries);
    McpackEffect(a, folder, dirs0, d);
    var packType := RoleFor(folder.name, d);
    if packType.None? {
      PlaceUnrouted(folder, dirs0, d);
      stats.skipped := stats.skipped + 1;
      return;
    }
    var role := packType.value;
    var answer := d.resolveConflict(folder.name, role);
    ghost var m := MoveFolder(dirs0.Get(role), folder.name, Dir(folder.manifest), answer);
    PlaceRouted(folder, dirs0, d, role);
    var destination := if role == Behavior then behaviorDir else resourceDir;
    var success, finalName :=
      MoveFolderToDestination(Dir(folder.manifest), destination, folder.name, answer);
    assert PackDirs(behaviorDir.entries, resourceDir.entries)
           == if success then dirs0.Put(role, m.entries) else dirs0;
    if success {
      if role == Behavior {
        stats.behaviorMoved := stats.behaviorMoved + 1;
      } else {
        stats.resourceMoved := stats.resourceMoved + 1;
      }
    } else {
      stats.skipped := stats.skipped + 1;
    }
  }

  /** The entry point's work: nothing when the download directory is absent
      or holds no `.mcpack` file; otherwise every file processed in turn, its
      stats added into the totals. */
  method ExtractMcpacks(downloads: Option<seq<Archive>>, behaviorDir: Directory,
                        resourceDir: Directory, d: Decider)
    returns (totals: Option<McpackTotals>)
    requires behaviorDir != resourceDir
    modifies behaviorDir, resourceDir
    ensures downloads.None? || downloads.value == [] ==>
      totals.None? && behaviorDir.entries == old(behaviorDir.entries) &&
      resourceDir.entries == old(resourceDir.entries)
    ensures downloads.Some? && downloads.value != [] ==>
      var e := ProcessArchives(Mcpack, downloads.value,
                               old(PackDirs(behaviorDir.entries, resourceDir.entries)), d);
      totals == Some(McpackTotals(|downloads.value|, e.counts)) &&
      PackDirs(behaviorDir.entries, resourceDir.entries) == e.dirs
  {
    if downloads.None? || downloads.value == [] {
      return None;
    }
    var mcpacks := downloads.value;
    ghost var before := PackDirs(behaviorDir.entries, resourceDir.entries);
    var processed := 0;
    var counts := NoCounts;
    for i := 0 to |mcpacks|
      invariant processed == i
      invariant Effect(PackDirs(behaviorDir.entries, resourceDir.entries), counts)
                == ProcessArchives(Mcpack, mcpacks[..i], before, d)
    {
      assert mcpacks[..i + 1][..i] == mcpacks[..i];
      var stats := ProcessMcpack(mcpacks[i], behaviorDir, resourceDir, d);
      counts := counts.Plus(stats.Value());
      processed := processed + 1;
    }
    assert mcpacks[..|mcpacks|] == mcpacks;
    totals := Some(McpackTotals(processed, counts));
  }

  /** The stand-alone extractor and the combined one agree: on a download
      directory holding only `.mcpack` files both leave the same directories
      and the same counters, and `mcpacks_processed` is the number of files,
      failed ones included. */
  lemma AgreesWithCombinedRun(mcpacks: seq<Archive>, dirs: PackDirs, d: Decider)
    requires mcpacks != []
    ensures var e := ProcessArchives(Mcpack, mcpacks, dirs, d);
      var (t, after) := RunEffect(Some(Intake([], mcpacks)), dirs, d);
      t == Totals(0, |mcpacks|, e.counts) && after == e.dirs
  {
    var e0 := ProcessArchives(Mcaddon, [], dirs, d);
    assert e0 == Effect(dirs, NoCounts);
    var e := ProcessArchives(Mcpack, mcpacks, dirs, d);
    assert NoCounts.Plus(e.counts) == e.counts;
  }

  /** One `.mcpack`: a failed extraction is exactly one error, with no
      classification and no move; a flat archive is classified by its own
      name; a wrapped one by its single folder's name. A behaviour pack goes
      to the behaviour directory and any other to the resource directory. */
  lemma McpackOutcome(a: Archive, dirs: PackDirs, d: Decider)
    ensures a.unpacked.None? ==> ArchiveEffect(Mcpack, a, dirs, d) == Effect(dirs, OneError)
    ensures a.unpacked.Some? ==>
      var x := a.unpacked.value;
      var c := ExtractMcpack(a).value;
      var e := ArchiveEffect(Mcpack, a, dirs, d);
      var p := Place(c, dirs, d);
      (if |x.items| == 1 && x.items[0].entry.Dir? then c.name == x.items[0].name
       else c == Candidate(a.stem, x.rootManifest)) &&
      e == Effect(p.dirs, Tally(p.outcome)) &&
      e.counts.errors == 0 &&
      e.counts.behaviorMoved + e.counts.resourceMoved + e.counts.skipped == 1 &&
      (e.counts.behaviorMoved == 1 ==>
         Route(c.name, d) == Some(Behavior) && e.dirs.resource == dirs.resource &&
         e.dirs.behavior == dirs.behavior[p.outcome.finalName := Dir(c.manifest)]) &&
      (e.counts.resourceMoved == 1 ==>
         Route(c.name, d) == Some(Resource) && e.dirs.behavior == dirs.behavior &&
         e.dirs.resource == dirs.resource[p.outcome.finalName := Dir(c.manifest)]) &&
      (e.counts.skipped == 1 ==> e.dirs == dirs)
  {
    if a.unpacked.Some? {
      var c := ExtractMcpack(a).value;
      PlaceCountsOne(c, dirs, d, d);
      PlaceEffect(c, dirs, d);
    }
  }
}
