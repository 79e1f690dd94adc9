/** The extraction engine of the combined extractor: turning `.mcaddon` and
    `.mcpack` archives into candidate pack folders, routing each candidate to
    the behaviour or resource directory, and keeping the outcome counters.

    Unpacking is an oracle (`Archive.unpacked`), the two interactive prompts
    are a `Decider`, and the role directories are `Directory` objects changed
    in place. `Place`, `ArchiveEffect` and `RunEffect` state the effect of
    each step as functions of the directories before it; the methods are
    proved to have exactly that effect. */
module AddonExtractor {
  import opened PackFs
  import opened Classifier
  import opened Relocation

  /** A candidate pack folder in the scratch area: its name, and the state of
      its manifest (what the folder becomes once moved). */
  datatype Candidate = Candidate(name: string, manifest: ManifestState)

  datatype Item = Item(name: string, entry: Entry)

  /** What unpacking an archive left in its scratch folder: the top-level
      items in directory order, and the manifest state of the scratch folder
      itself (which is the pack when the archive is flat). A root
      `manifest.json` is also one of the items, but a `File` entry carries no
      contents, so `rootManifest` is given alongside `items` and is not
      derived from them. */
  datatype Extraction = Extraction(items: seq<Item>, rootManifest: ManifestState)

  /** An archive: its file name without extension, and the result of
      unpacking it (`None` when it is not a valid ZIP file or extraction
      fails in any other way). */
  datatype Archive = Archive(stem: string, unpacked: Option<Extraction>)

  datatype ArchiveKind = Mcaddon | Mcpack

  /** The answers to the two prompts: the role for a folder whose name matches
      neither pattern (`None` to skip it), and the action when a folder name
      is already taken in the role directory. */
  datatype Decider = Decider(chooseRole: string -> Option<PackType>,
                             resolveConflict: (string, PackType) -> Conflict)

  /** The four counters of a stats dict. */
  datatype Counts = Counts(behaviorMoved: nat, resourceMoved: nat, skipped: nat, errors: nat)
  {
    function Plus(other: Counts): Counts
    {
      Counts(behaviorMoved + other.behaviorMoved, resourceMoved + other.resourceMoved,
             skipped + other.skipped, errors + other.errors)
    }
  }

  const NoCounts := Counts(0, 0, 0, 0)
  const OneError := Counts(0, 0, 0, 1)

  /** The contents of the two role directories. */
  datatype PackDirs = PackDirs(behavior: Listing, resource: Listing)
  {
    function Get(role: PackType): Listing
    {
      if role == Behavior then behavior else resource
    }

    function Put(role: PackType, entries: Listing): PackDirs
    {
      if role == Behavior then PackDirs(entries, resource) else PackDirs(behavior, entries)
    }
  }

  datatype Outcome = SkippedByUser | KeptExisting | Placed(role: PackType, finalName: string)

  datatype Placement = Placement(dirs: PackDirs, outcome: Outcome)

  datatype Effect = Effect(dirs: PackDirs, counts: Counts)

  /** The returned `total_stats` dict. */
  datatype Totals = Totals(mcaddonsProcessed: nat, mcpacksProcessed: nat, counts: Counts)

  /** The `.mcaddon` and `.mcpack` files found in the download directory, in
      the (unspecified) order `glob` lists them. */
  datatype Intake = Intake(mcaddons: seq<Archive>, mcpacks: seq<Archive>)

  // ---------------------------------------------------------------------
  // Candidate selection

  function CandidateOf(item: Item): Candidate
    requires item.entry.Dir?
  {
    Candidate(item.name, item.entry.manifest)
  }

  /** The directories among the items, in order. */
  function DirsAmong(items: seq<Item>): seq<Candidate>
  {
    if items == [] then []
    else
      var rest := DirsAmong(items[..|items| - 1]);
      var last := items[|items| - 1];
      if last.entry.Dir? then rest + [CandidateOf(last)] else rest
  }

  /** The folders an `.mcaddon` yields: every top-level directory, none when
      unpacking failed. */
  function TopLevelDirs(a: Archive): seq<Candidate>
  {
    match a.unpacked
    case None => []
    case Some(x) => DirsAmong(x.items)
  }

  lemma {:induction false} DirsAmongExact(items: seq<Item>)
    ensures |DirsAmong(items)| <= |items|
    ensures forall c :: c in DirsAmong(items) <==>
              exists i :: 0 <= i < |items| && items[i].entry.Dir? && c == CandidateOf(items[i])
  {
    if items != [] {
      var init := items[..|items| - 1];
      DirsAmongExact(init);
      forall c ensures c in DirsAmong(items) <==>
        exists i :: 0 <= i < |items| && items[i].entry.Dir? && c == CandidateOf(items[i])
      {
        if c in DirsAmong(init) {
          var i :| 0 <= i < |init| && init[i].entry.Dir? && c == CandidateOf(init[i]);
          assert items[i] == init[i];
        }
        if exists i :: 0 <= i < |items| && items[i].entry.Dir? && c == CandidateOf(items[i]) {
          var i :| 0 <= i < |items| && items[i].entry.Dir? && c == CandidateOf(items[i]);
          if i < |init| {
            assert init[i] == items[i];
          }
        }
      }
    }
  }

  /** `extract_mcaddon` yields exactly the top-level directories of the
      unpacked archive, and nothing when unpacking failed. */
  lemma TopLevelDirsExact(a: Archive)
    ensures a.unpacked.None? ==> TopLevelDirs(a) == []
    ensures a.unpacked.Some? ==>
      forall c :: c in TopLevelDirs(a) <==>
        exists i :: 0 <= i < |a.unpacked.value.items| && a.unpacked.value.items[i].entry.Dir? &&
                    c == CandidateOf(a.unpacked.value.items[i])
  {
    if a.unpacked.Some? {
      DirsAmongExact(a.unpacked.value.items);
    }
  }

  /** `extract_mcaddon`: lists the unpacked scratch folder and keeps its
      directories. */
  method ExtractMcaddon(a: Archive) returns (folders: seq<Candidate>)
    ensures folders == TopLevelDirs(a)
  {
    folders := [];
    if a.unpacked.None? {
      return;
    }
    var items := a.unpacked.value.items;
    for i := 0 to |items|
      invariant folders == DirsAmong(items[..i])
    {
      assert items[..i + 1][..i] == items[..i];
      if items[i].entry.Dir? {
        folders := folders + [CandidateOf(items[i])];
      }
    }
    assert items[..|items|] == items;
  }

  /** `extract_mcpack`: a single top-level directory is the pack (a wrapped
      layout); otherwise the scratch folder named after the archive is (a
      flat layout). `None` when unpacking failed. */
  function ExtractMcpack(a: Archive): Option<Candidate>
  {
    match a.unpacked
    case None => None
    case Some(x) =>
      if |x.items| == 1 && x.items[0].entry.Dir? then Some(CandidateOf(x.items[0]))
      else Some(Candidate(a.stem, x.rootManifest))
  }

  /** An `.mcpack` gives a candidate exactly when it unpacks. A wrapped pack's
      candidate is the one top-level directory that `extract_mcaddon` would
      list; any other layout gives the scratch folder, named after the
      archive and holding the archive's root manifest. */
  lemma McpackCandidate(a: Archive)
    ensures ExtractMcpack(a).Some? <==> a.unpacked.Some?
    ensures a.unpacked.Some? ==>
      var x := a.unpacked.value;
      var c := ExtractMcpack(a).value;
      (|x.items| == 1 && x.items[0].entry.Dir? ==> TopLevelDirs(a) == [c]) &&
      (!(|x.items| == 1 && x.items[0].entry.Dir?) ==> c.name == a.stem && c.manifest == x.rootManifest)
  {
    if a.unpacked.Some? {
      var items := a.unpacked.value.items;
      if |items| == 1 && items[0].entry.Dir? {
        assert items[..|items| - 1] == [];
        assert DirsAmong(items) == DirsAmong([]) + [CandidateOf(items[0])];
      }
    }
  }

  // ---------------------------------------------------------------------
  // Relocating one candidate

  /** The role of a folder: the detected one, or the user's answer when
      detection fails. */
  function Route(name: string, d: Decider): Option<PackType>
  {
    match DetectPackType(name)
    case Some(role) => Some(role)
    case None => d.chooseRole(name)
  }

  /** The role of a folder, in terms of the two regular-expression searches:
      behaviour when the behaviour pattern matches, resource when only the
      resource pattern does, and otherwise the user's answer, which is asked
      for only then. */
  lemma RouteByRegex(name: string, d: Decider, d2: Decider)
    ensures Search(BehaviorRule, name) ==> Route(name, d) == Some(Behavior)
    ensures !Search(BehaviorRule, name) && Search(ResourceRule, name) ==>
              Route(name, d) == Some(Resource)
    ensures !Search(BehaviorRule, name) && !Search(ResourceRule, name) ==>
              Route(name, d) == d.chooseRole(name)
    ensures Search(BehaviorRule, name) || Search(ResourceRule, name) ==>
              Route(name, d) == Route(name, d2)
  {
    DetectAgreesWithRegex(name);
  }

  /** `process_extracted_folder`, as a function of the role directories. */
  function Place(c: Candidate, dirs: PackDirs, d: Decider): Placement
  {
    match Route(c.name, d)
    case None => Placement(dirs, SkippedByUser)
    case Some(role) =>
      var m := MoveFolder(dirs.Get(role), c.name, Dir(c.manifest),
                          d.resolveConflict(c.name, role));
      if m.success then Placement(dirs.Put(role, m.entries), Placed(role, m.finalName))
      else Placement(dirs, KeptExisting)
  }

  /** `Place` once the role is known. */
  lemma PlaceRouted(c: Candidate, dirs: PackDirs, d: Decider, role: PackType)
    requires Route(c.name, d) == Some(role)
    ensures var m := MoveFolder(dirs.Get(role), c.name, Dir(c.manifest),
                                d.resolveConflict(c.name, role));
      Place(c, dirs, d) == if m.success then Placement(dirs.Put(role, m.entries), Placed(role, m.finalName))
                           else Placement(dirs, KeptExisting)
  {
  }

  /** `Place` when no role is given. */
  lemma PlaceUnrouted(c: Candidate, dirs: PackDirs, d: Decider)
    requires Route(c.name, d).None?
    ensures Place(c, dirs, d) == Placement(dirs, SkippedByUser)
  {
  }

  /** The counter an outcome raises. */
  function Tally(o: Outcome): Counts
  {
    match o
    case SkippedByUser => Counts(0, 0, 1, 0)
    case KeptExisting => Counts(0, 0, 1, 0)
    case Placed(Behavior, _) => Counts(1, 0, 0, 0)
    case Placed(Resource, _) => Counts(0, 1, 0, 0)
  }

  /** Relocating one candidate raises exactly one of skipped, behavior_moved
      and resource_moved, by one, and never errors. The user is asked for a
      role only when detection fails: with a detected role the answer to the
      role prompt makes no difference. */
  lemma PlaceCountsOne(c: Candidate, dirs: PackDirs, d: Decider, d2: Decider)
    requires d2.resolveConflict == d.resolveConflict
    ensures var t := Tally(Place(c, dirs, d).outcome);
      t.errors == 0 && t.behaviorMoved + t.resourceMoved + t.skipped == 1
    ensures DetectPackType(c.name).Some? ==> Place(c, dirs, d) == Place(c, dirs, d2)
    ensures Place(c, dirs, d).outcome == SkippedByUser <==> Route(c.name, d).None?
  {
  }

  /** Where a candidate lands: a behaviour pack in the behaviour directory,
      anything else in the resource directory, under the returned name; the
      other directory is untouched; a skipped candidate changes nothing. No
      name ever disappears from a role directory, and a directory gains at most
      one name per pack moved into it. */
  lemma PlaceEffect(c: Candidate, dirs: PackDirs, d: Decider)
    ensures var p := Place(c, dirs, d);
      (p.outcome.Placed? ==>
         var role := p.outcome.role;
         Route(c.name, d) == Some(role) &&
         p.dirs.Get(role) == dirs.Get(role)[p.outcome.finalName := Dir(c.manifest)] &&
         p.dirs.Get(Other(role)) == dirs.Get(Other(role))) &&
      (!p.outcome.Placed? ==> p.dirs == dirs) &&
      dirs.behavior.Keys <= p.dirs.behavior.Keys &&
      dirs.resource.Keys <= p.dirs.resource.Keys &&
      |p.dirs.behavior.Keys| <= |dirs.behavior.Keys| + Tally(p.outcome).behaviorMoved &&
      |p.dirs.resource.Keys| <= |dirs.resource.Keys| + Tally(p.outcome).resourceMoved
  {
    match Route(c.name, d)
    case None =>
    case Some(role) =>
      MovePolicy(dirs.Get(role), c.name, Dir(c.manifest), d.resolveConflict(c.name, role));
  }

  function Other(role: PackType): PackType
  {
    if role == Behavior then Resource else Behavior
  }

  // ---------------------------------------------------------------------
  // Whole archives and the whole run

  /** Relocating the candidates in order, adding up their counters. */
  function PlaceAll(cs: seq<Candidate>, dirs: PackDirs, d: Decider): Effect
  {
    if cs == [] then Effect(dirs, NoCounts)
    else
      var e := PlaceAll(cs[..|cs| - 1], dirs, d);
      var p := Place(cs[|cs| - 1], e.dirs, d);
      Effect(p.dirs, e.counts.Plus(Tally(p.outcome)))
  }

  lemma PlaceAllStep(cs: seq<Candidate>, i: nat, dirs: PackDirs, d: Decider)
    requires i < |cs|
    ensures var e := PlaceAll(cs[..i], dirs, d);
      var p := Place(cs[i], e.dirs, d);
      PlaceAll(cs[..i + 1], dirs, d) == Effect(p.dirs, e.counts.Plus(Tally(p.outcome)))
  {
    assert cs[..i + 1][..i] == cs[..i];
  }

  /** The stats `process_mcaddon` or `process_mcpack` returns for one archive,
      with the directories it leaves behind. */
  function ArchiveEffect(kind: ArchiveKind, a: Archive, dirs: PackDirs, d: Decider): Effect
  {
    match kind
    case Mcaddon =>
      var cs := TopLevelDirs(a);
      if cs == [] then Effect(dirs, OneError) else PlaceAll(cs, dirs, d)
    case Mcpack =>
      match ExtractMcpack(a)
      case None => Effect(dirs, OneError)
      case Some(c) =>
        var p := Place(c, dirs, d);
        Effect(p.dirs, Tally(p.outcome))
  }

  /** The effect of an `.mcpack` that yields a candidate is that candidate's
      placement. */
  lemma McpackEffect(a: Archive, c: Candidate, dirs: PackDirs, d: Decider)
    requires ExtractMcpack(a) == Some(c)
    ensures var p := Place(c, dirs, d);
      ArchiveEffect(Mcpack, a, dirs, d) == Effect(p.dirs, Tally(p.outcome))
  {
  }

  lemma NoCountsPlus(c: Counts)
    ensures NoCounts.Plus(c) == c
  {
  }

  /** Processing a list of archives of one kind, adding up their stats. */
  function ProcessArchives(kind: ArchiveKind, archives: seq<Archive>, dirs: PackDirs,
                           d: Decider): Effect
  {
    if archives == [] then Effect(dirs, NoCounts)
    else
      var e := ProcessArchives(kind, archives[..|archives| - 1], dirs, d);
      var f := ArchiveEffect(kind, archives[|archives| - 1], e.dirs, d);
      Effect(f.dirs, e.counts.Plus(f.counts))
  }

  /** `run_extraction`: every `.mcaddon`, then every `.mcpack`; nothing when
      the download directory is absent. */
  function RunEffect(intake: Option<Intake>, dirs: PackDirs, d: Decider): (Totals, PackDirs)
  {
    match intake
    case None => (Totals(0, 0, NoCounts), dirs)
    case Some(i) =>
      var e1 := ProcessArchives(Mcaddon, i.mcaddons, dirs, d);
      var e2 := ProcessArchives(Mcpack, i.mcpacks, e1.dirs, d);
      (Totals(|i.mcaddons|, |i.mcpacks|, e1.counts.Plus(e2.counts)), e2.dirs)
  }

  /** The candidates an archive yields, and whether it counts as an error. */
  function CandidateCount(kind: ArchiveKind, a: Archive): nat
  {
    match kind
    case Mcaddon => |TopLevelDirs(a)|
    case Mcpack => if ExtractMcpack(a).Some? then 1 else 0
  }

  predicate Failed(kind: ArchiveKind, a: Archive)
  {
    CandidateCount(kind, a) == 0
  }

  function CandidatesIn(kind: ArchiveKind, archives: seq<Archive>): nat
  {
    if archives == [] then 0
    else CandidatesIn(kind, archives[..|archives| - 1]) + CandidateCount(kind, archives[|archives| - 1])
  }

  function FailuresIn(kind: ArchiveKind, archives: seq<Archive>): nat
  {
    if archives == [] then 0
    else FailuresIn(kind, archives[..|archives| - 1]) + (if Failed(kind, archives[|archives| - 1]) then 1 else 0)
  }

  /** The counters of a sequence of relocations account for every candidate,
      and the directories only grow, by at most one name per pack moved in. */
  lemma {:induction false} PlaceAllAccounts(cs: seq<Candidate>, dirs: PackDirs, d: Decider)
    ensures var e := PlaceAll(cs, dirs, d);
      e.counts.errors == 0 &&
      e.counts.behaviorMoved + e.counts.resourceMoved + e.counts.skipped == |cs| &&
      dirs.behavior.Keys <= e.dirs.behavior.Keys && dirs.resource.Keys <= e.dirs.resource.Keys &&
      |e.dirs.behavior.Keys| <= |dirs.behavior.Keys| + e.counts.behaviorMoved &&
      |e.dirs.resource.Keys| <= |dirs.resource.Keys| + e.counts.resourceMoved
  {
    if cs != [] {
      var e := PlaceAll(cs[..|cs| - 1], dirs, d);
      PlaceAllAccounts(cs[..|cs| - 1], dirs, d);
      PlaceCountsOne(cs[|cs| - 1], e.dirs, d, d);
      PlaceEffect(cs[|cs| - 1], e.dirs, d);
    }
  }

  /** One archive: an `.mcaddon` without folders, or an `.mcpack` that cannot
      be unpacked, is exactly one error and touches no directory; otherwise
      every candidate is counted once as moved or skipped. */
  lemma ArchiveAccounts(kind: ArchiveKind, a: Archive, dirs: PackDirs, d: Decider)
    ensures var e := ArchiveEffect(kind, a, dirs, d);
      (Failed(kind, a) ==> e == Effect(dirs, OneError)) &&
      (!Failed(kind, a) ==>
         e.counts.errors == 0 &&
         e.counts.behaviorMoved + e.counts.resourceMoved + e.counts.skipped == CandidateCount(kind, a)) &&
      dirs.behavior.Keys <= e.dirs.behavior.Keys && dirs.resource.Keys <= e.dirs.resource.Keys &&
      |e.dirs.behavior.Keys| <= |dirs.behavior.Keys| + e.counts.behaviorMoved &&
      |e.dirs.resource.Keys| <= |dirs.resource.Keys| + e.counts.resourceMoved
  {
    match kind
    case Mcaddon =>
      PlaceAllAccounts(TopLevelDirs(a), dirs, d);
    case Mcpack =>
      if ExtractMcpack(a).Some? {
        PlaceCountsOne(ExtractMcpack(a).value, dirs, d, d);
        PlaceEffect(ExtractMcpack(a).value, dirs, d);
      }
  }

  /** Over a list of archives: errors are the failed archives, and moved plus
      skipped are the candidates of the others. */
  lemma {:induction false} ProcessArchivesAccounts(kind: ArchiveKind, archives: seq<Archive>,
                                                   dirs: PackDirs, d: Decider)
    ensures var e := ProcessArchives(kind, archives, dirs, d);
      e.counts.errors == FailuresIn(kind, archives) &&
      e.counts.behaviorMoved + e.counts.resourceMoved + e.counts.skipped
        == CandidatesIn(kind, archives) &&
      dirs.behavior.Keys <= e.dirs.behavior.Keys && dirs.resource.Keys <= e.dirs.resource.Keys &&
      |e.dirs.behavior.Keys| <= |dirs.behavior.Keys| + e.counts.behaviorMoved &&
      |e.dirs.resource.Keys| <= |dirs.resource.Keys| + e.counts.resourceMoved
  {
    if archives != [] {
      var init := archives[..|archives| - 1];
      var e := ProcessArchives(kind, init, dirs, d);
      ProcessArchivesAccounts(kind, init, dirs, d);
      ArchiveAccounts(kind, archives[|archives| - 1], e.dirs, d);
    }
  }

  /** The run's totals: every archive is counted as processed, failed ones
      included; errors are the failed archives; moved plus skipped are the
      candidates; existing pack folders are never removed. */
  lemma RunTotals(intake: Intake, dirs: PackDirs, d: Decider)
    ensures var (t, after) := RunEffect(Some(intake), dirs, d);
      t.mcaddonsProcessed == |intake.mcaddons| && t.mcpacksProcessed == |intake.mcpacks| &&
      t.counts.errors == FailuresIn(Mcaddon, intake.mcaddons) + FailuresIn(Mcpack, intake.mcpacks) &&
      t.counts.behaviorMoved + t.counts.resourceMoved + t.counts.skipped
        == CandidatesIn(Mcaddon, intake.mcaddons) + CandidatesIn(Mcpack, intake.mcpacks) &&
      dirs.behavior.Keys <= after.behavior.Keys && dirs.resource.Keys <= after.resource.Keys &&
      |after.behavior.Keys| <= |dirs.behavior.Keys| + t.counts.behaviorMoved &&
      |after.resource.Keys| <= |dirs.resource.Keys| + t.counts.resourceMoved
  {
    var e1 := ProcessArchives(Mcaddon, intake.mcaddons, dirs, d);
    ProcessArchivesAccounts(Mcaddon, intake.mcaddons, dirs, d);
    ProcessArchivesAccounts(Mcpack, intake.mcpacks, e1.dirs, d);
  }

  // ---------------------------------------------------------------------
  // The stats dict and the methods that change things

  /** A stats dict, updated in place. */
  class Stats {
    var behaviorMoved: nat
    var resourceMoved: nat
    var skipped: nat
    var errors: nat

    constructor ()
      ensures Value() == NoCounts
    {
      behaviorMoved, resourceMoved, skipped, errors := 0, 0, 0, 0;
    }

    function Value(): Counts
      reads this
    {
      Counts(behaviorMoved, resourceMoved, skipped, errors)
    }
  }

  /** The detected role, or the user's answer when detection fails. */
  method RoleFor(name: string, d: Decider) returns (packType: Option<PackType>)
    ensures packType == Route(name, d)
  {
    packType := DetectPackType(name);
    if packType.None? {
      packType := d.chooseRole(name);
    }
  }

  /** `process_extracted_folder`: detect or ask for the role, move the folder
      into that role's directory and raise one counter of `stats`. */
  method ProcessExtractedFolder(folder: Candidate, behaviorDir: Directory, resourceDir: Directory,
                                stats: Stats, d: Decider)
    requires behaviorDir != resourceDir
    modifies behaviorDir, resourceDir, stats
    ensures var p := Place(folder, old(PackDirs(behaviorDir.entries, resourceDir.entries)), d);
      PackDirs(behaviorDir.entries, resourceDir.entries) == p.dirs &&
      stats.Value() == old(stats.Value()).Plus(Tally(p.outcome))
  {
    ghost var dirs0 := PackDirs(behaviorDir.entries, resourceDir.entries);
    var packType := RoleFor(folder.name, d);
    if packType.None? {
      PlaceUnrouted(folder, dirs0, d);
      stats.skipped := stats.skipped + 1;
      return;
    }
    var role := packType.value;
    var answer := d.resolveConflict(folder.name, role);
    ghost var m := MoveFolder(dirs0.Get(role), folder.name, Dir(folder.manifest), answer);
    PlaceRouted(folder, dirs0, d, role);
    var destination := if role == Behavior then behaviorDir else resourceDir;
    var success, finalName :=
      MoveFolderToDestination(Dir(folder.manifest), destination, folder.name, answer);
    assert PackDirs(behaviorDir.entries, resourceDir.entries)
           == if success then dirs0.Put(role, m.entries) else dirs0;
    if success {
      if role == Behavior {
        stats.behaviorMoved := stats.behaviorMoved + 1;
      } else {
        stats.resourceMoved := stats.resourceMoved + 1;
      }
    } else {
      stats.skipped := stats.skipped + 1;
    }
  }

  /** `process_mcaddon`: one error when the archive yields no folder,
      otherwise every folder relocated in turn. */
  method ProcessMcaddon(a: Archive, behaviorDir: Directory, resourceDir: Directory, d: Decider)
    returns (stats: Stats)
    requires behaviorDir != resourceDir
    modifies behaviorDir, resourceDir
    ensures fresh(stats)
    ensures Effect(PackDirs(behaviorDir.entries, resourceDir.entries), stats.Value())
            == ArchiveEffect(Mcaddon, a, old(PackDirs(behaviorDir.entries, resourceDir.entries)), d)
  {
    stats := new Stats();
    var folders := ExtractMcaddon(a);
    if |folders| == 0 {
      stats.errors := stats.errors + 1;
      return;
    }
    ghost var before := PackDirs(behaviorDir.entries, resourceDir.entries);
    for i := 0 to |folders|
      invariant Effect(PackDirs(behaviorDir.entries, resourceDir.entries), stats.Value())
                == PlaceAll(folders[..i], before, d)
    {
      PlaceAllStep(folders, i, before, d);
      ProcessExtractedFolder(folders[i], behaviorDir, resourceDir, stats, d);
    }
    assert folders[..|folders|] == folders;
  }

  /** `process_mcpack`: one error when the archive cannot be unpacked,
      otherwise its one candidate relocated. */
  method ProcessMcpack(a: Archive, behaviorDir: Directory, resourceDir: Directory, d: Decider)
    returns (stats: Stats)
    requires behaviorDir != resourceDir
    modifies behaviorDir, resourceDir
    ensures fresh(stats)
    ensures Effect(PackDirs(behaviorDir.entries, resourceDir.entries), stats.Value())
            == ArchiveEffect(Mcpack, a, old(PackDirs(behaviorDir.entries, resourceDir.entries)), d)
  {
    stats := new Stats();
    var folder := ExtractMcpack(a);
    if folder.None? {
      stats.errors := stats.errors + 1;
      return;
    }
    ghost var dirs0 := PackDirs(behaviorDir.entries, resourceDir.entries);
    McpackEffect(a, folder.value, dirs0, d);
    ProcessExtractedFolder(folder.value, behaviorDir, resourceDir, stats, d);
    NoCountsPlus(Tally(Place(folder.value, dirs0, d).outcome));
  }

  /** One of the two loops of `run_extraction`: every archive of one kind in
      turn, its stats added into the running counts. */
  method ProcessEach(kind: ArchiveKind, archives: seq<Archive>, behaviorDir: Directory,
                     resourceDir: Directory, d: Decider)
    returns (counts: Counts)
    requires behaviorDir != resourceDir
    modifies behaviorDir, resourceDir
    ensures Effect(PackDirs(behaviorDir.entries, resourceDir.entries), counts)
            == ProcessArchives(kind, archives, old(PackDirs(behaviorDir.entries, resourceDir.entries)), d)
  {
    counts := NoCounts;
    ghost var before := PackDirs(behaviorDir.entries, resourceDir.entries);
    for i := 0 to |archives|
      invariant Effect(PackDirs(behaviorDir.entries, resourceDir.entries), counts)
                == ProcessArchives(kind, archives[..i], before, d)
    {
      assert archives[..i + 1][..i] == archives[..i];
      var stats;
      if kind == Mcaddon {
        stats := ProcessMcaddon(archives[i], behaviorDir, resourceDir, d);
      } else {
        stats := ProcessMcpack(archives[i], behaviorDir, resourceDir, d);
      }
      counts := counts.Plus(stats.Value());
    }
    assert archives[..|archives|] == archives;
  }

  /** `run_extraction`: processes every `.mcaddon`, then every `.mcpack`, and
      adds each archive's stats into the totals. */
  method RunExtraction(intake: Option<Intake>, behaviorDir: Directory, resourceDir: Directory,
                       d: Decider)
    returns (totals: Totals)
    requires behaviorDir != resourceDir
    modifies behaviorDir, resourceDir
    ensures (totals, PackDirs(behaviorDir.entries, resourceDir.entries))
            == RunEffect(intake, old(PackDirs(behaviorDir.entries, resourceDir.entries)), d)
  {
    totals := Totals(0, 0, NoCounts);
    if intake.None? {
      return;
    }
    var mcaddons := intake.value.mcaddons;
    var mcpacks := intake.value.mcpacks;
    if |mcaddons| == 0 && |mcpacks| == 0 {
      return;
    }
    var addonCounts := ProcessEach(Mcaddon, mcaddons, behaviorDir, resourceDir, d);
    var packCounts := ProcessEach(Mcpack, mcpacks, behaviorDir, resourceDir, d);
    totals := Totals(|mcaddons|, |mcpacks|, addonCounts.Plus(packCounts));
  }
}
