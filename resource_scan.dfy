/** The stand-alone resource-pack scanner: the same reconciliation as
    `scan_packs`, hard-wired to the `resource_packs` directory and the
    `world_resource_packs.json` index, and returning nothing. */
module ResourceScan {
  import opened PackFs
  import opened ManifestScan

  /** `scan_resource_packs`: when the directory is absent nothing is read or
      written; otherwise the index is replaced by the scan's results. The
      report stands for the printed summary. */
  method ScanResourcePacks(resourcePacks: Option<Listing>, output: OutputFile)
    returns (report: Option<ScanReport>)
    modifies output
    ensures resourcePacks.None? ==> report.None? && output.content == old(output.content)
    ensures resourcePacks.Some? ==>
      report == Some(ScanSpec(resourcePacks.value, old(output.content))) &&
      output.content == IndexOf(report.value.scan.results)
  {
    if resourcePacks.None? {
      return None;
    }
    var r := Reconcile(resourcePacks.value, output);
    report := Some(r);
  }

  /** The summary's figures: processed is the number of records in the
      output, duplicates and skipped the folders that added none, and removed
      the previous ids that no folder carries any more. */
  lemma SummaryFigures(dir: Listing, prev: IndexFile)
    ensures var rep := ScanSpec(dir, prev);
      rep.scan.processed == |rep.scan.results| &&
      rep.scan.processed + rep.scan.skipped + rep.scan.duplicates == |DirNames(dir)| &&
      rep.removed == ExistingIds(prev) - ValidIds(dir) &&
      (rep.created <==> prev.NoFile?)
  {
    ScanInvariant(NameOrder.SortedKeys(dir.Keys), dir);
    RemovedAreOrphans(dir, prev);
    FolderCountIsDirs(dir);
  }
}
