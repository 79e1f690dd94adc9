/** Worked examples: concrete folder names, directories and archives, and
    what the model says happens to them. */
module Scenarios {
  import opened PackFs
  import opened NameOrder
  import opened Classifier
  import opened Relocation
  import opened AddonExtractor
  import opened ManifestScan
  import opened AddonManager

  /** A name whose letter where the word would start is another letter does
      not end with the word. */
  lemma WordMismatch(s: string, w: string)
    requires 0 < |w| <= |s| && Lower(s[|s| - |w|]) != w[0]
    ensures !EndsWithWord(s, w)
  {
    assert s[|s| - |w|..][0] == s[|s| - |w|];
  }

  lemma PhraseMismatch(s: string, phrase: string)
    requires 4 <= |s| ==> Lower(s[|s| - 4]) != 'p'
    ensures !EndsWithPhrase(s, phrase)
  {
    if 4 <= |s| {
      assert s[|s| - 4..][0] == s[|s| - 4];
    }
  }

  /** None of the four alternatives of a rule ends the name. */
  lemma RuleMismatch(rule: SuffixRule, s: string)
    requires 0 < |rule.pair1| <= |s| && Lower(s[|s| - |rule.pair1|]) != rule.pair1[0]
    requires 0 < |rule.pair2| <= |s| && Lower(s[|s| - |rule.pair2|]) != rule.pair2[0]
    requires 0 < |rule.single| <= |s| && Lower(s[|s| - |rule.single|]) != rule.single[0]
    requires 4 <= |s| ==> Lower(s[|s| - 4]) != 'p'
    ensures !MatchesRule(rule, s)
  {
    WordMismatch(s, rule.pair1);
    WordMismatch(s, rule.pair2);
    WordMismatch(s, rule.single);
    PhraseMismatch(s, rule.phrase);
  }

  /** An underscore-separated `BP` suffix makes a behaviour pack. */
  lemma CastleBehaviorPack()
    ensures DetectPackType("Castle_BP") == Some(Behavior)
  {
    assert EndsWithWord("Castle_BP", "bp");
  }

  /** A space-separated `RP` suffix makes a resource pack. */
  lemma CastleResourcePack()
    ensures DetectPackType("Castle RP") == Some(Resource)
  {
    RuleMismatch(BehaviorRule, "Castle RP");
    assert EndsWithWord("Castle RP", "rp");
  }

  /** A name without a suffix is not classified. */
  lemma PlainNameUnclassified()
    ensures DetectPackType("Castle") == None
  {
    RuleMismatch(BehaviorRule, "Castle");
    RuleMismatch(ResourceRule, "Castle");
  }

  /** The separator is optional, so any name ending in `r` is a resource
      pack. */
  lemma TrailingRIsResource()
    ensures DetectPackType("Tower") == Some(Resource)
  {
    RuleMismatch(BehaviorRule, "Tower");
    assert EndsWithWord("Tower", "r");
  }

  /** Only whitespace may separate the phrase from `Pack`. */
  lemma UnderscoreBreaksPhrase()
    ensures DetectPackType("X Behavior_Pack") == None
  {
    var u := "X Behavior_";
    assert "X Behavior_Pack"[..15 - 4] == u;
    assert TrimSpace(u) == u;
    WordMismatch(u, "behavior");
    WordMismatch(u, "resource");
    WordMismatch("X Behavior_Pack", "bp");
    WordMismatch("X Behavior_Pack", "bh");
    WordMismatch("X Behavior_Pack", "b");
    WordMismatch("X Behavior_Pack", "rp");
    WordMismatch("X Behavior_Pack", "rs");
    WordMismatch("X Behavior_Pack", "r");
  }

  /** A name ending in the behaviour phrase is a behaviour pack. */
  lemma BehaviorPhraseDetected(s: string)
    requires EndsWithPhrase(s, BehaviorRule.phrase)
    ensures DetectPackType(s) == Some(Behavior)
  {
  }

  lemma SpacedPhraseMatches()
    ensures EndsWithPhrase("Dragon Behavior  Pack", "behavior")
  {
    var s := "Dragon Behavior  Pack";
    assert s[..|s| - 4] == "Dragon Behavior  ";
    assert TrimSpace("Dragon Behavior ") == "Dragon Behavior";
    assert TrimSpace("Dragon Behavior  ") == "Dragon Behavior";
  }

  /** Any run of whitespace may separate the phrase from `Pack`. */
  lemma SpacedPhrase()
    ensures DetectPackType("Dragon Behavior  Pack") == Some(Behavior)
  {
    SpacedPhraseMatches();
    BehaviorPhraseDetected("Dragon Behavior  Pack");
  }

  /** With `name`, `name_1` and `name_2` taken, a renamed folder becomes
      `name_3`, and the three existing folders are kept. */
  lemma RenameExample(m: ManifestState)
    ensures var entries := map["name" := Dir(m), "name_1" := Dir(m), "name_2" := File];
      var r := MoveFolder(entries, "name", Dir(Missing), Rename);
      r.success && r.finalName == "name_3" &&
      r.entries == entries["name_3" := Dir(Missing)]
  {
    var entries := map["name" := Dir(m), "name_1" := Dir(m), "name_2" := File];
    assert Suffixed("name", 1) == "name_1";
    assert Suffixed("name", 2) == "name_2";
    assert Suffixed("name", 3) == "name_3";
    RenameTakesLeastFreeName(entries, "name", Dir(Missing), 3);
  }

  const DragonBehavior := Parsed(Some("b-uuid"), Some([1, 0, 0]))
  const DragonResource := Parsed(Some("r-uuid"), Some([1, 0, 0]))

  /** An `.mcaddon` with a behaviour folder, a resource folder and a loose
      file at its top level. */
  const Dragon := Archive("Dragon", Some(Extraction([Item("Dragon BP", Dir(DragonBehavior)),
                                                    Item("Dragon RP", Dir(DragonResource)),
                                                    Item("readme.txt", File)], Missing)))

  const DragonFolders := [Candidate("Dragon BP", DragonBehavior),
                          Candidate("Dragon RP", DragonResource)]

  /** The loose file is not a candidate. */
  lemma DragonCandidates()
    ensures TopLevelDirs(Dragon) == DragonFolders
  {
    var items := Dragon.unpacked.value.items;
    assert DirsAmong(items[..1]) == [DragonFolders[0]] by {
      assert items[..1][..0] == [];
    }
    assert DirsAmong(items[..2]) == DragonFolders by {
      assert items[..2][..1] == items[..1];
    }
    assert items[..|items| - 1] == items[..2];
  }

  lemma DragonRoles()
    ensures DetectPackType("Dragon BP") == Some(Behavior)
    ensures DetectPackType("Dragon RP") == Some(Resource)
  {
    assert EndsWithWord("Dragon BP", "bp");
    RuleMismatch(BehaviorRule, "Dragon RP");
    assert EndsWithWord("Dragon RP", "rp");
  }

  const NoPacks := PackDirs(map[], map[])
  const BehaviorPlaced := PackDirs(map["Dragon BP" := Dir(DragonBehavior)], map[])
  const BothPlaced := PackDirs(map["Dragon BP" := Dir(DragonBehavior)],
                               map["Dragon RP" := Dir(DragonResource)])

  /** The behaviour folder goes to the empty behaviour directory under its
      own name, whatever the user would answer. */
  lemma DragonFirstMove(d: Decider)
    ensures Place(DragonFolders[0], NoPacks, d) == Placement(BehaviorPlaced, Placed(Behavior, "Dragon BP"))
  {
    DragonRoles();
    PlaceRouted(DragonFolders[0], NoPacks, d, Behavior);
  }

  /** The resource folder then goes to the empty resource directory. */
  lemma DragonSecondMove(d: Decider)
    ensures Place(DragonFolders[1], BehaviorPlaced, d) == Placement(BothPlaced, Placed(Resource, "Dragon RP"))
  {
    DragonRoles();
    PlaceRouted(DragonFolders[1], BehaviorPlaced, d, Resource);
  }

  /** Two candidates placed one after the other. */
  lemma TwoPlacements(c0: Candidate, c1: Candidate, dirs0: PackDirs, dirs1: PackDirs,
                      dirs2: PackDirs, o0: Outcome, o1: Outcome, d: Decider)
    requires Place(c0, dirs0, d) == Placement(dirs1, o0)
    requires Place(c1, dirs1, d) == Placement(dirs2, o1)
    ensures PlaceAll([c0, c1], dirs0, d) == Effect(dirs2, Tally(o0).Plus(Tally(o1)))
  {
    OnePlacement(c0, dirs0, dirs1, o0, d);
    SecondPlacement(c0, c1, dirs0, d);
  }

  lemma SecondPlacement(c0: Candidate, c1: Candidate, dirs: PackDirs, d: Decider)
    ensures var e0 := PlaceAll([c0], dirs, d);
      var p1 := Place(c1, e0.dirs, d);
      PlaceAll([c0, c1], dirs, d) == Effect(p1.dirs, e0.counts.Plus(Tally(p1.outcome)))
  {
    assert [c0, c1][..1] == [c0];
  }

  lemma OnePlacement(c: Candidate, dirs0: PackDirs, dirs1: PackDirs, o: Outcome, d: Decider)
    requires Place(c, dirs0, d) == Placement(dirs1, o)
    ensures PlaceAll([c], dirs0, d) == Effect(dirs1, Tally(o))
  {
    assert [c][..0] == [];
    NoCountsPlus(Tally(o));
  }

  /** The two moves in turn. */
  lemma DragonMoves(d: Decider)
    ensures PlaceAll([DragonFolders[0], DragonFolders[1]], NoPacks, d)
            == Effect(BothPlaced, Tally(Placed(Behavior, "Dragon BP")).Plus(Tally(Placed(Resource, "Dragon RP"))))
  {
    DragonFirstMove(d);
    DragonSecondMove(d);
    TwoPlacements(DragonFolders[0], DragonFolders[1], NoPacks, BehaviorPlaced, BothPlaced,
                  Placed(Behavior, "Dragon BP"), Placed(Resource, "Dragon RP"), d);
  }

  /** One behaviour and one resource pack moved. */
  lemma DragonCounts()
    ensures Tally(Placed(Behavior, "Dragon BP")).Plus(Tally(Placed(Resource, "Dragon RP"))) == Counts(1, 1, 0, 0)
  {
    var a, b := Tally(Placed(Behavior, "Dragon BP")), Tally(Placed(Resource, "Dragon RP"));
    assert a == Counts(1, 0, 0, 0) && b == Counts(0, 1, 0, 0);
    assert a.Plus(b) == Counts(1, 1, 0, 0);
  }

  /** Unpacked into empty role directories, each folder lands in its own
      directory under its own name. */
  lemma DragonPlacement(d: Decider)
    ensures PlaceAll(DragonFolders, NoPacks, d) == Effect(BothPlaced, Counts(1, 1, 0, 0))
  {
    DragonMoves(d);
    DragonCounts();
    assert DragonFolders == [DragonFolders[0], DragonFolders[1]];
  }

  /** A run over a single `.mcaddon` is that archive's effect. */
  lemma SingleAddonRun(a: Archive, dirs: PackDirs, d: Decider, e: Effect)
    requires ArchiveEffect(Mcaddon, a, dirs, d) == e
    ensures RunEffect(Some(Intake([a], [])), dirs, d) == (Totals(1, 0, e.counts), e.dirs)
  {
    assert ProcessArchives(Mcaddon, [a], dirs, d) == Effect(e.dirs, NoCounts.Plus(e.counts)) by {
      assert [a][..0] == [];
    }
    assert ProcessArchives(Mcpack, [], e.dirs, d) == Effect(e.dirs, NoCounts);
    NoCountsPlus(e.counts);
    assert e.counts.Plus(NoCounts) == e.counts;
  }

  lemma DragonArchive(d: Decider)
    ensures ArchiveEffect(Mcaddon, Dragon, NoPacks, d) == Effect(BothPlaced, Counts(1, 1, 0, 0))
  {
    DragonCandidates();
    DragonPlacement(d);
  }

  /** The whole run over that one archive: one `.mcaddon` processed, one
      behaviour and one resource pack moved. */
  lemma DragonRun(d: Decider)
    ensures RunEffect(Some(Intake([Dragon], [])), NoPacks, d)
            == (Totals(1, 0, Counts(1, 1, 0, 0)), BothPlaced)
  {
    DragonArchive(d);
    SingleAddonRun(Dragon, NoPacks, d, Effect(BothPlaced, Counts(1, 1, 0, 0)));
  }

  const SharedManifest := Parsed(Some("u1"), Some([1, 2, 0]))

  const ExampleDir: Listing :=
    map["Beta" := Dir(SharedManifest), "Alpha" := Dir(SharedManifest),
        "Zeta" := Dir(Missing), "notes.txt" := File]

  const ExampleNames := ["Alpha", "Beta", "Zeta", "notes.txt"]

  /** Upper-case letters sort before lower-case ones: `Zeta` comes before
      `notes.txt`, although it would come after it ignoring case. */
  lemma ExampleListing()
    ensures SortedKeys(ExampleDir.Keys) == ExampleNames
  {
    var names := ExampleNames;
    assert Below("Alpha", "Beta") && Below("Beta", "Zeta") && Below("Zeta", "notes.txt");
    assert StrictlySorted(names) by {
      forall i, j | 0 <= i < j < |names| ensures Below(names[i], names[j]) {
        if j == i + 1 {
        } else if i == 0 && j == 2 {
          BelowTransitive(names[0], names[1], names[2]);
        } else if i == 1 && j == 3 {
          BelowTransitive(names[1], names[2], names[3]);
        } else {
          BelowTransitive(names[0], names[1], names[2]);
          BelowTransitive(names[0], names[2], names[3]);
        }
      }
    }
    SortedKeysUnique(ExampleDir.Keys, names);
  }

  const ExampleRecord := PackRecord("u1", [1, 2, 0])
  const AfterAlpha := ScanState([ExampleRecord], {"u1"}, 1, 0, 0, [LogLine("Alpha", Accepted(ExampleRecord))])
  const AfterBeta := AfterAlpha.(duplicates := 1, log := AfterAlpha.log + [LogLine("Beta", Duplicate("u1"))])
  const AfterZeta := AfterBeta.(skipped := 1, log := AfterBeta.log + [LogLine("Zeta", NoManifest)])

  /** The first folder is accepted. */
  lemma ScanAlpha()
    ensures Scan(ExampleNames[..1], ExampleDir) == AfterAlpha
  {
    assert ExampleNames[..1][..0] == [];
    assert Judge(SharedManifest, {}) == Accepted(ExampleRecord);
  }

  /** The second folder carries the same uuid: a duplicate. */
  lemma ScanBeta()
    ensures Scan(ExampleNames[..2], ExampleDir) == AfterBeta
  {
    ScanAlpha();
    assert ExampleNames[..2][..1] == ExampleNames[..1];
    assert Judge(SharedManifest, {"u1"}) == Duplicate("u1");
  }

  /** The third has no manifest: one skip. */
  lemma ScanZeta()
    ensures Scan(ExampleNames[..3], ExampleDir) == AfterZeta
  {
    ScanBeta();
    assert ExampleNames[..3][..2] == ExampleNames[..2];
  }

  /** The plain file is passed over. */
  lemma ScanExample()
    ensures Scan(ExampleNames, ExampleDir) == AfterZeta
  {
    ScanZeta();
    assert ExampleNames[..3] == ExampleNames[..|ExampleNames| - 1];
  }

  /** The report lists the folder that the scan skips for a missing manifest. */
  lemma MissingExample()
    ensures WithoutManifest(ExampleNames, ExampleDir) == ["Zeta"]
  {
    ScanExample();
    ReportMatchesScan(ExampleNames, ExampleDir);
    assert NoManifestFolders(AfterAlpha.log) == [] by {
      assert AfterAlpha.log[..0] == [];
    }
    assert NoManifestFolders(AfterBeta.log) == [] by {
      assert AfterBeta.log[..1] == AfterAlpha.log;
    }
    assert AfterZeta.log[..2] == AfterBeta.log;
  }

  lemma ExampleFigures()
    ensures AfterZeta.results == [ExampleRecord] && AfterZeta.processed == 1 &&
            AfterZeta.duplicates == 1 && AfterZeta.skipped == 1
    ensures AfterZeta.log == [LogLine("Alpha", Accepted(ExampleRecord)), LogLine("Beta", Duplicate("u1")),
                               LogLine("Zeta", NoManifest)]
  {
  }

  /** Two folders sharing a uuid, one without a manifest and a plain file:
      the first folder in sorted order is kept, the other is a duplicate, the
      manifest-less one is skipped and is the one the report lists. */
  lemma DuplicateScan()
    ensures var st := Scan(SortedKeys(ExampleDir.Keys), ExampleDir);
      st.results == [ExampleRecord] && st.processed == 1 && st.duplicates == 1 && st.skipped == 1 &&
      st.log == [LogLine("Alpha", Accepted(ExampleRecord)), LogLine("Beta", Duplicate("u1")),
                 LogLine("Zeta", NoManifest)] &&
      MissingIn(Some(ExampleDir)) == ["Zeta"]
  {
    ExampleListing();
    ScanExample();
    MissingExample();
    ExampleFigures();
  }
}
