# Minecraft Bedrock addon manager — a verified model

This project models the core of a small toolkit that manages Minecraft Bedrock
addons in a world folder. It covers three parts:

- **Extraction.** `.mcaddon` and `.mcpack` archives from `downloaded_addons/` are
  unpacked. Each candidate folder is classified as a behaviour pack or a resource
  pack by its name (or by the user's answer). It is then moved into
  `behavior_packs/` or `resource_packs/` under a three-way conflict policy:
  overwrite, skip, or rename to the first free `name_k`. The counters the tools
  print are kept alongside. Both the combined extractor and the stand-alone
  `.mcpack` extractor are modelled.
- **Manifest reconciliation.** A pack directory's folders are scanned in sorted
  order. Each `manifest.json` is checked. Packs are de-duplicated by uuid, the
  first folder winning. Ids that were in the previous
  `world_*_packs.json` index but are gone are reported. The index is then
  overwritten. Both the generic scanner and the resource-pack one are modelled.
- **Missing-manifest report.** This lists, in sorted order, the subdirectories
  that have no `manifest.json`.

A directory is a finite map from names to entries: a plain file, or a folder
with its manifest state (missing, unreadable, or parsed with an optional uuid and
an optional version). Unpacking an archive is an oracle result: the top-level
items and the root manifest, or a failure. The interactive prompts are a
`Decider`: a fixed answer policy that gives a role, or none, for a folder name,
and a conflict answer for a name and a role.

Modules:

- `PackFs` (`pack_fs.dfy`): the shared data model.
- `NameOrder` (`name_order.dfy`): the order of `sorted(dir.iterdir())` on
  POSIX paths.
- `Classifier` (`classifier.dfy`): `detect_pack_type`, proved equal to a
  declarative model of the two regular-expression searches.
- `Relocation` (`relocation.dfy`): `get_unique_folder_name` and
  `move_folder_to_destination` over a `Directory` object.
- `AddonExtractor` (`addon_extractor.dfy`): candidate selection, placement,
  statistics and `run_extraction`.
  - Pure specification functions (`Place`, `ArchiveEffect`, `ProcessArchives`,
    `RunEffect`) carry the accounting lemmas.
  - The imperative methods are proved equal to them.
- `McpackExtractor` (`mcpack_extractor.dfy`): the stand-alone `.mcpack` tool's
  inline `process_mcpack` and totals loop.
- `ManifestScan` (`manifest_scan.dfy`): the `scan_packs` loop as a fold, and its
  reference definition (valid records, then first-of-each-id).
  - Also covered: reading the previous index, the removed-id diff, and the
    overwrite.
- `ResourceScan` (`resource_scan.dfy`): `scan_resource_packs`.
- `AddonManager` (`missing_manifests.dfy`): `find_folders_without_manifest` and
  `report_missing_manifests`.
- `Scenarios` (`scenarios.dfy`): worked examples on concrete names, archives and
  directories.

Where the code and its description differ, the model follows the code:

- **The classification patterns test suffixes.** The separator class
  `[\s_-]?` is optional and the search is not anchored at the start. So `"Tower"`
  is a resource pack, and `"X Behavior_Pack"` is not classified (only whitespace
  may sit inside the phrase).
- **A faulty previous index can cut reading short.** The previous index is read
  entry by entry inside one `try`. An element on which `'pack_id' in entry`
  raises ends the loop, but the ids collected before it are kept, not discarded.

## Model

| member | source | states |
|---|---|---|
| `Classifier.SearchIffSuffix` | scan_downloaded_addons.py:22-23 | For either pattern, an unanchored `re.search` of `[\s_-]?(...)$` over the rule's four alternatives succeeds exactly when the name ends, ignoring case, in one of the three words or in the phrase followed by any whitespace and `pack`. |
| `Classifier.DetectAgreesWithRegex` | scan_downloaded_addons.py:36-49 | `detect_pack_type` gives behaviour iff the behaviour pattern matches; resource iff the resource pattern matches and the behaviour one does not; nothing iff neither matches. |
| `Classifier.NoNameMatchesBoth` | scan_downloaded_mcpacks.py:22-23 | No folder name matches both patterns. |
| `Classifier.BehaviorNotResource` | scan_downloaded_addons.py:45-48 | A name the behaviour suffix test accepts is never one the resource suffix test accepts, so the `elif` is reached only by names the behaviour test rejects. |
| `Classifier.CheckOrderIrrelevant` | scan_downloaded_addons.py:45-48 | Testing the resource pattern first would give the same classification for every name. |
| `Classifier.BehaviorEndings` | scan_downloaded_addons.py:22 | A name the behaviour suffix test accepts ends, ignoring case, in `b`, `p`, `h` or `k`; a final `p` follows a `b`, and a final `k` ends the behaviour phrase and `pack`. |
| `Classifier.ResourceEndings` | scan_downloaded_addons.py:23 | A name the resource suffix test accepts ends, ignoring case, in `r`, `p`, `s` or `k`; a final `p` follows an `r`, and a final `k` ends the resource phrase and `pack`. |
| `Classifier.TrimSpaceSplits` | scan_downloaded_mcpacks.py:22-23 | Stripping trailing whitespace leaves a prefix with no whitespace at its end, and everything removed is whitespace. This is the `\s*` before `pack`. |
| `Relocation.ParseDecimalInverts` | scan_downloaded_addons.py:105 | The decimal counter in `f"{base_name}_{counter}"` reads back as the same number. |
| `Relocation.SuffixedInjective` | scan_downloaded_addons.py:107-108 | Different counters give different names, so each round of the loop tries a new name. |
| `Relocation.OccupiedBound` | scan_downloaded_addons.py:106-108 | Once the loop has reached counter k, the directory holds at least k-1 entries. So the loop ends on a finite directory. |
| `Relocation.FreeCounterFrom` | scan_downloaded_addons.py:104-109 | Counting up from a k whose lower counters are all taken reaches a free `base_r` with r ≥ k, and every counter below r is taken. |
| `Relocation.LeastFreeCounter` | scan_downloaded_mcpacks.py:102-109 | The counter chosen is the least k ≥ 1 with `base_k` absent from the directory. |
| `Relocation.GetUniqueFolderName` | scan_downloaded_addons.py:102-109 | The while loop returns a name not in the destination, namely `base_k` for the least free k ≥ 1. |
| `Relocation.MovePolicy` | scan_downloaded_mcpacks.py:119-133 | A free name moves the source there and returns `(True, name)`, whatever the answer. On a taken name: Skip changes nothing and returns `(False, name)`; Overwrite succeeds under the requested name and replaces the existing entry whole; Rename succeeds, keeps the existing entry and adds the source under `get_unique_folder_name`'s `base_k`, which is returned. A failed move is always a Skip on a taken name. No other entry changes and no name disappears. |
| `Relocation.RenameTakesLeastFreeName` | scan_downloaded_addons.py:128-130 | On rename the returned name is `base_k` for the least free k. |
| `Relocation.MoveFolderToDestination` | scan_downloaded_addons.py:112-133 | The method's success flag, final name and new destination contents are those of the move policy applied to the old contents and the conflict answer. |
| `AddonExtractor.TopLevelDirsExact` | scan_downloaded_addons.py:156-164 | An `.mcaddon` yields exactly the top-level directories of the unpacked archive, and nothing when unpacking failed. Loose files are never candidates. |
| `AddonExtractor.ExtractMcaddon` | scan_downloaded_addons.py:136-164 | The loop over the scratch folder returns the top-level directories in listing order. |
| `AddonExtractor.McpackCandidate` | scan_downloaded_addons.py:187-202 | An `.mcpack` gives a candidate iff it unpacks. A single top-level directory is the candidate, the same one `extract_mcaddon` would list. Otherwise the candidate is the folder named after the archive, holding the root manifest. |
| `AddonExtractor.PlaceCountsOne` | scan_downloaded_addons.py:211-238 | Placing one folder raises exactly one of skipped, behaviour-moved and resource-moved, and never errors. It is a user skip iff detection and the prompt give no role. When detection succeeds, the role prompt's answer is irrelevant. |
| `AddonExtractor.RouteByRegex` | scan_downloaded_addons.py:212-216 | A name the behaviour pattern's `re.search` matches is a behaviour pack; one only the resource pattern matches is a resource pack; only when neither matches is the user asked, and the answer is the role; when either matches, the answer to the role prompt makes no difference. |
| `AddonExtractor.PlaceEffect` | scan_downloaded_addons.py:223-238 | A placed folder goes to the directory of its role under the returned name, and the other directory is untouched. A skip leaves both as they were. Existing names are never removed, and a directory gains at most one name per pack moved into it. |
| `AddonExtractor.PlaceAllAccounts` | scan_downloaded_addons.py:264-265 | Over an archive's folders, moved plus skipped equals the number of folders, and errors stay zero. |
| `AddonExtractor.ArchiveAccounts` | scan_downloaded_addons.py:241-295 | An archive that fails (an `.mcaddon` with no folder, an `.mcpack` that does not unpack) adds exactly one error and moves nothing. Otherwise moved plus skipped is its candidate count and errors are zero. Existing names are never removed. |
| `AddonExtractor.ProcessArchivesAccounts` | scan_downloaded_addons.py:363-382 | Summed over any sequence of archives, errors count the failed archives, and moved plus skipped counts the candidates. Existing pack folders are never removed. |
| `AddonExtractor.RunTotals` | scan_downloaded_addons.py:358-382 | `run_extraction`'s processed counts are the numbers of `.mcaddon` and `.mcpack` files, failed ones included. Its counters are the sums over both loops, in that order. |
| `AddonExtractor.Stats.constructor` | scan_downloaded_addons.py:248-253 | A fresh stats record has every counter at zero. |
| `AddonExtractor.ProcessExtractedFolder` | scan_downloaded_addons.py:205-238 | The method leaves both role directories and the stats record as the placement specification says. |
| `AddonExtractor.ProcessMcaddon` | scan_downloaded_addons.py:241-267 | The stats and directories after one `.mcaddon` are its specified effect. A failed unpack gives exactly one error. |
| `AddonExtractor.ProcessMcpack` | scan_downloaded_addons.py:270-295 | The stats and directories after one `.mcpack` are its specified effect. |
| `AddonExtractor.ProcessEach` | scan_downloaded_addons.py:376-382 | The loop over one kind of archive adds up the per-archive stats and leaves the directories as the specification's fold does. |
| `AddonExtractor.RunExtraction` | scan_downloaded_addons.py:298-393 | With no download directory, or no archives, the totals are zero and nothing moves. Otherwise the totals and directories are `RunEffect`'s. |
| `McpackExtractor.ProcessMcpack` | scan_downloaded_mcpacks.py:174-226 | The inline routing, prompt, move and counters leave the same stats and directories as the combined extractor's specification. |
| `McpackExtractor.McpackOutcome` | scan_downloaded_mcpacks.py:158-224 | A failed extraction is exactly one error, with no move. Otherwise the wrapped folder's or the archive's own name is classified; one counter is raised; behaviour packs go to the behaviour directory and others to the resource directory; a skip changes nothing. |
| `McpackExtractor.ExtractMcpacks` | scan_downloaded_mcpacks.py:243-287 | A missing download directory or no `.mcpack` file returns before anything moves. Otherwise `mcpacks_processed` is the number of files and the counters are the sums of the per-file stats. |
| `McpackExtractor.AgreesWithCombinedRun` | scan_downloaded_mcpacks.py:281-287 | On `.mcpack` files alone, the stand-alone tool's totals and directories equal the combined extractor's. |
| `AddonManager.WithoutManifestExact` | addon_manager.py:47-53 | The list holds exactly the listed subdirectories that have no manifest; plain files are ignored. A sorted listing gives a sorted list. |
| `AddonManager.MissingListExact` | addon_manager.py:32-55 | An absent packs directory gives `[]`. Otherwise the result is strictly sorted and holds exactly the folders without a manifest. |
| `AddonManager.ReportMatchesScan` | addon_manager.py:51-53 | For the same listing, the report equals the folders that the manifest scan logs as having no `manifest.json`. |
| `AddonManager.FindFoldersWithoutManifest` | addon_manager.py:32-55 | The method returns the specified list for the directory, or `[]` when it is absent. |
| `AddonManager.CollectWithoutManifest` | addon_manager.py:47-53 | The append loop over the listing returns the filter of the names. |
| `AddonManager.ReportMissingManifests` | addon_manager.py:58-97 | The report holds both directories' lists. |
| `AddonManager.TotalMissingCounts` | addon_manager.py:68-73 | `total_missing` is the behaviour list's length plus the resource list's, and counts the folders without a manifest in both directories. |
| `ManifestScan.JudgeAcceptsValid` | scan_packs.py:69-105 | A folder is accepted iff its manifest has a truthy uuid and version and the uuid is unseen. It is a duplicate iff valid with a seen uuid. "No manifest" is reported iff the manifest is missing. An accepted record carries the manifest's uuid and version. |
| `ManifestScan.ScanInvariant` | scan_packs.py:54-116 | After any prefix of the listing, the result ids are unique and equal `seen_pack_ids`, and `processed_count` is `len(results)`. Processed plus skipped plus duplicates is the number of folders visited; plain files add nothing. |
| `ManifestScan.ScanIsReference` | scan_packs.py:63-116 | The loop's results are the valid folders' records with later repeats of an id dropped. `seen_pack_ids` is the set of valid uuids. Duplicates count the dropped records; skips count the invalid folders. One log line is written per folder. |
| `ManifestScan.VisitValid` | scan_packs.py:101-116 | A valid folder adds its record to the reference, and the loop accepts it or counts a duplicate exactly as the de-duplication keeps or drops it. |
| `ManifestScan.VisitInvalid` | scan_packs.py:67-99 | A folder that fails a check adds no record and one skip. |
| `ManifestScan.DedupIds` | scan_packs.py:101-112 | De-duplication keeps every id, each once. |
| `ManifestScan.DedupFirstWins` | scan_packs.py:101-105 | A record is kept iff it is the first with its id, so the first folder in sorted order wins. |
| `ManifestScan.DedupKeepsOnlyFirsts` | scan_packs.py:101-105 | Every record kept is the first record of its id. |
| `ManifestScan.DedupKeepsFirsts` | scan_packs.py:108-112 | The first record of every id is kept. |
| `ManifestScan.ValidRecordsFromFolders` | scan_packs.py:86-112 | Each record carries some valid folder's uuid and version unchanged. The ids are exactly the uuids of the valid folders. There are no more records than folders. |
| `ManifestScan.FolderCountIsDirs` | scan_packs.py:63-65 | The sorted listing visits each subdirectory once. |
| `ManifestScan.ExistingIdsAreKeyed` | scan_packs.py:42-50 | Previous ids come only from entries with a `pack_id`. They are all such ids unless a faulty entry ended the loop early. |
| `ManifestScan.PreviousIds` | scan_packs.py:38-52 | An absent or unreadable previous file contributes no ids. A readable one contributes only ids of `pack_id` entries, all of them when no entry is faulty. |
| `ManifestScan.ReadExistingIds` | scan_packs.py:38-52 | The reading loop returns the previous ids as specified, stopping at the first faulty entry. |
| `ManifestScan.IndexRoundTrip` | scan_packs.py:128-129 | Reading back a written index gives exactly the ids written. |
| `ManifestScan.RemovedAreOrphans` | scan_packs.py:118-120 | Removed ids are the previous ids that no valid folder carries now. No removed id is in the new results. |
| `ManifestScan.ValidIdsAreScanned` | scan_packs.py:63-112 | The uuids of the valid folders are the ids of the sorted scan's records. |
| `ManifestScan.RescanReportsNoRemovals` | scan_packs.py:118-129 | The index is replaced, not merged. So scanning the same directory again reports nothing removed, does not create the file, and gives the same results and counters. |
| `ManifestScan.ScanFolders` | scan_packs.py:62-65 | The scan runs over the subdirectories in sorted order. |
| `ManifestScan.ScanNames` | scan_packs.py:62-116 | The loop over the listed names gives the fold's state: results, seen ids, counters and log. |
| `ManifestScan.ScanPacks` | scan_packs.py:25-144 | An absent directory returns False and leaves the index file untouched. Otherwise it returns True, reports the specified scan against the old file, and the file then holds exactly the results. |
| `ManifestScan.Reconcile` | scan_packs.py:38-129 | Once the directory exists, the report is the specified scan against the old file, and the file is overwritten with the results. |
| `ResourceScan.ScanResourcePacks` | scan_resource_packs.py:14-129 | An absent `resource_packs` directory writes nothing. Otherwise the resource index is replaced by the specified scan's results. |
| `ResourceScan.SummaryFigures` | scan_resource_packs.py:103-125 | In the printed summary, processed is the number of records. Processed, skipped and duplicates add up to the number of subdirectories. Removed is the previous ids minus the current valid ids. The file is "created" iff none existed before. |
| `NameOrder.SortedKeys` | addon_manager.py:47 | The sorted listing is strictly ordered, code point by code point with a prefix first, and holds each name of the directory exactly once. |
| `NameOrder.SortedKeysUnique` | scan_packs.py:63 | Any strictly ordered sequence of exactly a directory's names is its sorted listing. |
| `NameOrder.MinName` | scan_resource_packs.py:50 | Finds the name that sorts first. |
| `NameOrder.SortNames` | scan_packs.py:63 | The selection sort standing for `sorted()` returns the sorted listing. |
| `Scenarios.CastleBehaviorPack` | scan_downloaded_addons.py:22 | `"Castle_BP"` is a behaviour pack. |
| `Scenarios.CastleResourcePack` | scan_downloaded_addons.py:23 | `"Castle RP"` is a resource pack. |
| `Scenarios.PlainNameUnclassified` | scan_downloaded_addons.py:49 | `"Castle"` is not classified. |
| `Scenarios.TrailingRIsResource` | scan_downloaded_mcpacks.py:23 | `"Tower"` is a resource pack, since the separator is optional. |
| `Scenarios.UnderscoreBreaksPhrase` | scan_downloaded_mcpacks.py:22 | `"X Behavior_Pack"` is not classified. |
| `Scenarios.BehaviorPhraseDetected` | scan_downloaded_addons.py:45-46 | Any name ending in the behaviour phrase and `pack` is a behaviour pack. |
| `Scenarios.SpacedPhrase` | scan_downloaded_addons.py:22 | `"Dragon Behavior  Pack"`, with two spaces, is a behaviour pack. |
| `Scenarios.RenameExample` | scan_downloaded_addons.py:102-109 | With `name`, `name_1` and `name_2` taken, a renamed folder becomes `name_3` and the existing entries stay. |
| `Scenarios.DragonCandidates` | scan_downloaded_addons.py:156-158 | An `.mcaddon` holding a behaviour folder, a resource folder and a loose file yields the two folders. |
| `Scenarios.DragonPlacement` | scan_downloaded_addons.py:264-265 | Into empty role directories, each folder lands in its own directory: one behaviour and one resource move, whatever the prompts would answer. |
| `Scenarios.SingleAddonRun` | scan_downloaded_addons.py:358-369 | A run over one `.mcaddon` has that archive's counters and one processed file. |
| `Scenarios.DragonRun` | scan_downloaded_addons.py:298-393 | The whole run over that archive processes one `.mcaddon`, moves one pack of each role and has no errors or skips. |
| `Scenarios.ExampleListing` | scan_packs.py:63 | Upper-case names sort before lower-case ones: `Zeta` comes before `notes.txt`. |
| `Scenarios.MissingExample` | addon_manager.py:47-53 | In the example directory, only the folder without a manifest is reported. |
| `Scenarios.DuplicateScan` | scan_packs.py:63-116 | Two folders sharing a uuid, one folder without a manifest and a plain file give one record, one duplicate and one skip. The plain file is passed over, and the first folder in sorted order wins. |

## Left out

- **ZIP decompression** is an oracle. `zipfile` and `extractall` follow the ZIP
  format, which is not modelled; an archive carries its unpacked items or a
  failure.
- **JSON parsing and writing.** A manifest is its abstract state, and the index a
  sequence of records. Non-object manifests and headers, non-string uuids, and
  any truthy JSON value other than a string uuid or an array version are
  outside the model (they raise in the source or are never written there).
- **The interactive prompts** are the `Decider`. `prompt_pack_type` and
  `prompt_conflict_resolution` parse tokens and re-ask forever on bad input;
  the model takes their eventual answer as given.
- **Answers that change between identical questions.** A `Decider` answers
  the role prompt as a function of the folder name, and the conflict prompt as
  a function of the folder name and the role. In the source every `input()` is
  a separate answer, so a run that asks the same question twice can get two
  different answers: for example, when two archives yield folders of the same
  name and the user answers Rename once and Skip once. Such runs are not
  expressible, and `AddonExtractor.RunTotals`, `AddonExtractor.ArchiveAccounts`
  and the other run-level results are proved only for runs in which equal
  questions get equal answers.
- **Windows path semantics.** `NameOrder` orders names code point by code
  point, as `PosixPath` compares them. On Windows, `WindowsPath` compares
  case-folded names, so `sorted(iterdir())` can list folders in another order.
  `exists()` there is case-insensitive as well, while a `Listing` tells
  `Castle` and `castle` apart. So the scan order and the name-collision checks
  of `MoveFolder` and `UniqueFolderName` hold for case-sensitive POSIX paths
  only.
- **All console output.** The summaries are represented by `ScanReport`, the
  scan log and `Totals`.
- **Entry points and glue.** The `main` functions (apart from the stand-alone
  `.mcpack` extractor's totals loop), `get_script_dir`, the "Press Enter" pauses,
  and the addon manager's final listing of the pack folders are not modelled.
- **Filesystem housekeeping.** `mkdir` of the role and temp directories, the
  per-archive scratch folders, the removal of the scratch tree after a move, and
  the final temp cleanup are not modelled. Exceptions from `rmtree` and `move`
  are not modelled either; the source does not catch them.
- **Regular-expression corner cases.** `\s` is ASCII whitespace as Python's
  `str.isspace` sees it (codes 9-13, 28-31 and 32). Case folding is ASCII only.
  `$` matching before a trailing newline is not modelled.
- **The root manifest of an extraction** is given alongside its items
  (`AddonExtractor.Extraction.rootManifest`), not derived from a
  `manifest.json` item, because a file entry carries no contents. An
  extraction whose root manifest disagrees with its item listing is
  expressible.
- **Archive stems** are assumed distinct; two archives with one stem would
  share a scratch folder.
- **`glob` order** is unspecified; the archives arrive as an arbitrary sequence.
- **Duplicated functions.** `detect_pack_type`, `get_unique_folder_name`,
  `move_folder_to_destination` and `extract_mcpack` in
  `scan_downloaded_mcpacks.py` are copies of the combined extractor's, and are
  modelled once.
- **`ResourceScan.ScanResourcePacks`** calls the shared `Reconcile` rather than
  repeating the loop that `scan_resource_packs.py` writes inline. The two loops
  perform the same checks in the same order.
