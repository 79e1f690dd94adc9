/** Manifest reconciliation: the scan of a packs directory that rebuilds the
    `world_*_packs.json` index from the folders' manifests.

    The folders are visited in sorted name order. A folder is skipped when its
    manifest is missing, unreadable, or lacks a truthy `header.uuid` or
    `header.version`; a folder whose uuid was already taken is a duplicate;
    every other folder adds a record. `Scan` states the loop as a fold over the
    folder names, and the lemmas relate it to an independent reference: filter
    the valid folders' records (`ValidRecords`), then keep the first record of
    each id (`Dedup`). */
module ManifestScan {
  import opened PackFs
  import opened NameOrder

  /** One record of the index: `{"pack_id": ..., "version": ...}`. */
  datatype PackRecord = PackRecord(packId: string, version: seq<nat>)

  /** What the scan decides for one folder, as its console line reports it. */
  datatype Verdict =
    | NoManifest
    | Unreadable
    | NoUuid
    | NoVersion
    | Duplicate(packId: string)
    | Accepted(record: PackRecord)

  datatype LogLine = LogLine(folder: string, verdict: Verdict)

  /** The loop variables: `results`, `seen_pack_ids`, the three counters, and
      the per-folder lines written to the console. */
  datatype ScanState = ScanState(results: seq<PackRecord>, seen: set<string>, processed: nat,
                                 skipped: nat, duplicates: nat, log: seq<LogLine>)

  const Start := ScanState([], {}, 0, 0, 0, [])

  /** A folder whose manifest has a truthy uuid (a non-empty string) and a
      truthy version (a non-empty array). */
  predicate ValidEntry(e: Entry)
  {
    e.Dir? && e.manifest.Parsed? &&
    e.manifest.uuid.Some? && e.manifest.uuid.value != [] &&
    e.manifest.version.Some? && e.manifest.version.value != []
  }

  function RecordOf(e: Entry): PackRecord
    requires ValidEntry(e)
  {
    PackRecord(e.manifest.uuid.value, e.manifest.version.value)
  }

  /** The checks on one folder's manifest, in the order the loop makes them. */
  function Judge(m: ManifestState, seen: set<string>): Verdict
  {
    match m
    case Missing => NoManifest
    case Malformed => Unreadable
    case Parsed(uuid, version) =>
      if uuid.None? || uuid.value == [] then NoUuid
      else if version.None? || version.value == [] then NoVersion
      else if uuid.value in seen then Duplicate(uuid.value)
      else Accepted(PackRecord(uuid.value, version.value))
  }

  /** One turn of the loop. Names that are not directories are passed over. */
  function Visit(st: ScanState, name: string, dir: Listing): ScanState
  {
    if name !in dir || dir[name].File? then st
    else
      var v := Judge(dir[name].manifest, st.seen);
      var logged := st.(log := st.log + [LogLine(name, v)]);
      match v
      case Accepted(r) =>
        logged.(results := st.results + [r], seen := st.seen + {r.packId},
                processed := st.processed + 1)
      case Duplicate(_) => logged.(duplicates := st.duplicates + 1)
      case _ => logged.(skipped := st.skipped + 1)
  }

  /** The loop over `names`, in the given order. */
  function Scan(names: seq<string>, dir: Listing): ScanState
  {
    if names == [] then Start
    else Visit(Scan(names[..|names| - 1], dir), names[|names| - 1], dir)
  }

  /** How many of `names` are directories. */
  function FolderCount(names: seq<string>, dir: Listing): nat
  {
    if names == [] then 0
    else
      var last := names[|names| - 1];
      FolderCount(names[..|names| - 1], dir) + (if last in dir && dir[last].Dir? then 1 else 0)
  }

  /** The subdirectories of a directory. */
  function DirNames(dir: Listing): set<string>
  {
    set n | n in dir && dir[n].Dir?
  }

  lemma {:induction false} FolderCountSorted(names: seq<string>, dir: Listing)
    requires StrictlySorted(names)
    ensures FolderCount(names, dir) == |set n | n in names && n in dir && dir[n].Dir?|
  {
    if names != [] {
      var init := names[..|names| - 1];
      var last := names[|names| - 1];
      assert StrictlySorted(init) by {
        forall i, j | 0 <= i < j < |init| ensures Below(init[i], init[j]) {
          assert init[i] == names[i] && init[j] == names[j];
        }
      }
      FolderCountSorted(init, dir);
      assert last !in init by {
        if last in init {
          var k :| 0 <= k < |init| && init[k] == last;
          assert Below(names[k], names[|names| - 1]);
          BelowIrreflexive(last);
        }
      }
      assert names == init + [last];
      AddName(init, last, dir);
    }
  }

  lemma AddName(init: seq<string>, last: string, dir: Listing)
    requires last !in init
    ensures var before := set n | n in init && n in dir && dir[n].Dir?;
      var after := set n | n in init + [last] && n in dir && dir[n].Dir?;
      if last in dir && dir[last].Dir? then after == before + {last} && last !in before
      else after == before
  {
    assert forall n :: n in init + [last] <==> n in init || n == last;
  }

  /** The sorted listing holds each subdirectory once: the loop visits as
      many folders as the directory has. */
  lemma FolderCountIsDirs(dir: Listing)
    ensures FolderCount(SortedKeys(dir.Keys), dir) == |DirNames(dir)|
  {
    var names := SortedKeys(dir.Keys);
    FolderCountSorted(names, dir);
    assert (set n | n in names && n in dir && dir[n].Dir?) == DirNames(dir);
  }

  // ---------------------------------------------------------------------
  // The reference definition: filter, then keep the first of each id

  function IdSet(rs: seq<PackRecord>): set<string>
  {
    set r | r in rs :: r.packId
  }

  predicate UniqueIds(rs: seq<PackRecord>)
  {
    forall i, j :: 0 <= i < j < |rs| ==> rs[i].packId != rs[j].packId
  }

  /** The records of the valid folders among `names`, in order. */
  function ValidRecords(names: seq<string>, dir: Listing): seq<PackRecord>
  {
    if names == [] then []
    else
      var rest := ValidRecords(names[..|names| - 1], dir);
      var last := names[|names| - 1];
      if last in dir && ValidEntry(dir[last]) then rest + [RecordOf(dir[last])] else rest
  }

  /** The records whose id no earlier record has. */
  function Dedup(rs: seq<PackRecord>): seq<PackRecord>
  {
    if rs == [] then []
    else
      var d := Dedup(rs[..|rs| - 1]);
      var last := rs[|rs| - 1];
      if last.packId in IdSet(d) then d else d + [last]
  }

  /** `rs[i]` is the first record with its id. */
  predicate FirstOfId(rs: seq<PackRecord>, i: int)
    requires 0 <= i < |rs|
  {
    forall j :: 0 <= j < i ==> rs[j].packId != rs[i].packId
  }

  lemma IdSetAppend(rs: seq<PackRecord>, r: PackRecord)
    ensures IdSet(rs + [r]) == IdSet(rs) + {r.packId}
  {
    assert forall x :: x in rs + [r] <==> x in rs || x == r;
  }

  /** De-duplication keeps every id, and each only once. */
  lemma {:induction false} DedupIds(rs: seq<PackRecord>)
    ensures IdSet(Dedup(rs)) == IdSet(rs)
    ensures UniqueIds(Dedup(rs)) && |Dedup(rs)| <= |rs|
  {
    if rs != [] {
      var init := rs[..|rs| - 1];
      var last := rs[|rs| - 1];
      var d := Dedup(init);
      DedupIds(init);
      IdSetAppend(init, last);
      assert rs == init + [last];
      if last.packId !in IdSet(d) {
        IdSetAppend(d, last);
        forall i, j | 0 <= i < j < |d + [last]|
          ensures (d + [last])[i].packId != (d + [last])[j].packId
        {
          if j == |d| {
            assert (d + [last])[i] in d;
          }
        }
      }
    }
  }

  /** The first record of its id stays first in any longer sequence. */
  lemma FirstOfIdPrefix(rs: seq<PackRecord>, n: nat, i: nat)
    requires i < n <= |rs|
    ensures FirstOfId(rs[..n], i) <==> FirstOfId(rs, i)
  {
    assert forall j :: 0 <= j <= i ==> rs[..n][j] == rs[j];
  }

  /** De-duplication keeps exactly the first record of each id. */
  lemma DedupFirstWins(rs: seq<PackRecord>)
    ensures forall r :: r in Dedup(rs) <==>
              exists i :: 0 <= i < |rs| && rs[i] == r && FirstOfId(rs, i)
  {
    forall r ensures r in Dedup(rs) <==> exists i :: 0 <= i < |rs| && rs[i] == r && FirstOfId(rs, i) {
      if r in Dedup(rs) {
        DedupKeepsOnlyFirsts(rs, r);
      }
      if exists i :: 0 <= i < |rs| && rs[i] == r && FirstOfId(rs, i) {
        var i :| 0 <= i < |rs| && rs[i] == r && FirstOfId(rs, i);
        DedupKeepsFirsts(rs, i);
      }
    }
  }

  /** Every record de-duplication keeps is the first of its id. */
  lemma {:induction false} DedupKeepsOnlyFirsts(rs: seq<PackRecord>, r: PackRecord)
    requires r in Dedup(rs)
    ensures exists i :: 0 <= i < |rs| && rs[i] == r && FirstOfId(rs, i)
  {
    var init := rs[..|rs| - 1];
    var last := rs[|rs| - 1];
    var d := Dedup(init);
    assert Dedup(rs) == if last.packId in IdSet(d) then d else d + [last];
    if r in d {
      DedupKeepsOnlyFirsts(init, r);
      var i :| 0 <= i < |init| && init[i] == r && FirstOfId(init, i);
      FirstOfIdPrefix(rs, |rs| - 1, i);
      assert rs[i] == r;
    } else {
      DedupIds(init);
      LastIsFirst(rs, d);
      assert rs[|rs| - 1] == r;
    }
  }

  /** The first record of each id is kept by de-duplication. */
  lemma {:induction false} DedupKeepsFirsts(rs: seq<PackRecord>, i: nat)
    requires i < |rs| && FirstOfId(rs, i)
    ensures rs[i] in Dedup(rs)
  {
    var init := rs[..|rs| - 1];
    var last := rs[|rs| - 1];
    var d := Dedup(init);
    assert Dedup(rs) == if last.packId in IdSet(d) then d else d + [last];
    if i < |init| {
      FirstOfIdPrefix(rs, |rs| - 1, i);
      DedupKeepsFirsts(init, i);
      assert init[i] == rs[i];
    } else {
      DedupIds(init);
      LastIsKept(rs, d);
    }
  }

  /** A last record whose id the earlier records lack is the first of its id. */
  lemma LastIsFirst(rs: seq<PackRecord>, d: seq<PackRecord>)
    requires rs != [] && IdSet(d) == IdSet(rs[..|rs| - 1])
    requires rs[|rs| - 1].packId !in IdSet(d)
    ensures FirstOfId(rs, |rs| - 1)
  {
    var init := rs[..|rs| - 1];
    forall j | 0 <= j < |rs| - 1 ensures rs[j].packId != rs[|rs| - 1].packId {
      assert rs[j] == init[j] && init[j] in init;
    }
  }

  /** A last record that is the first of its id has an id the earlier records
      lack. */
  lemma LastIsKept(rs: seq<PackRecord>, d: seq<PackRecord>)
    requires rs != [] && IdSet(d) == IdSet(rs[..|rs| - 1])
    requires FirstOfId(rs, |rs| - 1)
    ensures rs[|rs| - 1].packId !in IdSet(d)
  {
  }

  /** The records of the valid folders carry their manifests' uuid and
      version unchanged, and the ids among them are exactly the uuids of the
      valid folders. */
  lemma {:induction false} ValidRecordsFromFolders(names: seq<string>, dir: Listing)
    ensures forall r :: r in ValidRecords(names, dir) ==>
              exists i :: 0 <= i < |names| && names[i] in dir &&
                          dir[names[i]] == Dir(Parsed(Some(r.packId), Some(r.version)))
    ensures forall id :: id in IdSet(ValidRecords(names, dir)) <==>
              exists i :: 0 <= i < |names| && Carries(dir, names[i], id)
    ensures |ValidRecords(names, dir)| <= FolderCount(names, dir)
  {
    if names != [] {
      var init := names[..|names| - 1];
      var last := names[|names| - 1];
      var rest := ValidRecords(init, dir);
      ValidRecordsFromFolders(init, dir);
      forall r | r in ValidRecords(names, dir)
        ensures exists i :: 0 <= i < |names| && names[i] in dir &&
                            dir[names[i]] == Dir(Parsed(Some(r.packId), Some(r.version)))
      {
        if r in rest {
          var i :| 0 <= i < |init| && init[i] in dir &&
                   dir[init[i]] == Dir(Parsed(Some(r.packId), Some(r.version)));
          assert names[i] == init[i];
        } else {
          assert names[|names| - 1] == last;
        }
      }
      forall id
        ensures id in IdSet(ValidRecords(names, dir)) <==>
                exists i :: 0 <= i < |names| && Carries(dir, names[i], id)
      {
        if last in dir && ValidEntry(dir[last]) {
          IdSetAppend(rest, RecordOf(dir[last]));
        }
        if id in IdSet(rest) {
          var i :| 0 <= i < |init| && Carries(dir, init[i], id);
          assert names[i] == init[i];
        }
        if exists i :: 0 <= i < |names| && Carries(dir, names[i], id) {
          var i :| 0 <= i < |names| && Carries(dir, names[i], id);
          if i < |init| {
            assert init[i] == names[i];
          }
        }
      }
    }
  }

  /** Folder `n` holds a valid manifest whose uuid is `id`. */
  predicate Carries(dir: Listing, n: string, id: string)
  {
    n in dir && ValidEntry(dir[n]) && dir[n].manifest.uuid.value == id
  }

  /** The loop computes the reference: its results are the valid folders'
      records with later duplicates dropped, `seen_pack_ids` holds every valid
      uuid, each later record with a taken id is one duplicate, and each other
      folder one skip. */
  lemma {:induction false} ScanIsReference(names: seq<string>, dir: Listing)
    ensures var st := Scan(names, dir);
      var recs := ValidRecords(names, dir);
      st.results == Dedup(recs) && st.seen == IdSet(recs) &&
      st.processed == |st.results| &&
      st.duplicates + |st.results| == |recs| &&
      st.skipped + |recs| == FolderCount(names, dir) &&
      |st.log| == FolderCount(names, dir)
  {
    if names != [] {
      var init := names[..|names| - 1];
      var last := names[|names| - 1];
      ScanIsReference(init, dir);
      var st := Scan(init, dir);
      var recs := ValidRecords(init, dir);
      var count := FolderCount(init, dir);
      if last in dir && ValidEntry(dir[last]) {
        VisitValid(st, recs, count, last, dir);
      } else if last in dir && dir[last].Dir? {
        VisitInvalid(st, recs, count, last, dir);
      }
    }
  }

  /** The figures of `ScanIsReference`, for a state, the records so far and
      the number of folders so far. */
  predicate AgreesWith(st: ScanState, recs: seq<PackRecord>, count: nat)
  {
    st.results == Dedup(recs) && st.seen == IdSet(recs) &&
    st.processed == |st.results| &&
    st.duplicates + |st.results| == |recs| &&
    st.skipped + |recs| == count && |st.log| == count
  }

  /** A valid folder adds its record to the reference, and the loop either
      accepts it or counts a duplicate, as the reference's de-duplication
      keeps or drops it. */
  lemma VisitValid(st: ScanState, recs: seq<PackRecord>, count: nat, name: string, dir: Listing)
    requires AgreesWith(st, recs, count)
    requires name in dir && ValidEntry(dir[name])
    ensures AgreesWith(Visit(st, name, dir), recs + [RecordOf(dir[name])], count + 1)
  {
    var r := RecordOf(dir[name]);
    DedupStep(recs, r);
    IdSetAppend(recs, r);
    var line := st.log + [LogLine(name, Judge(dir[name].manifest, st.seen))];
    if r.packId in st.seen {
      assert Visit(st, name, dir) == st.(log := line, duplicates := st.duplicates + 1);
    } else {
      assert Visit(st, name, dir) == st.(log := line, results := st.results + [r],
                                         seen := st.seen + {r.packId}, processed := st.processed + 1);
    }
  }

  /** Appending a record to the reference keeps it exactly when its id is
      new. */
  lemma DedupStep(recs: seq<PackRecord>, r: PackRecord)
    ensures Dedup(recs + [r]) == if r.packId in IdSet(recs) then Dedup(recs) else Dedup(recs) + [r]
  {
    assert (recs + [r])[..|recs + [r]| - 1] == recs;
    DedupIds(recs);
  }

  /** A folder that is not valid adds no record and one skip. */
  lemma VisitInvalid(st: ScanState, recs: seq<PackRecord>, count: nat, name: string, dir: Listing)
    requires AgreesWith(st, recs, count)
    requires name in dir && dir[name].Dir? && !ValidEntry(dir[name])
    ensures AgreesWith(Visit(st, name, dir), recs, count + 1)
  {
    var v := Judge(dir[name].manifest, st.seen);
    assert !v.Accepted? && !v.Duplicate?;
  }

  /** What the loop keeps true: the ids in `results` are unique and are
      exactly `seen_pack_ids`, `processed_count` is `len(results)`, and every
      directory adds one to exactly one of processed, skipped and duplicate,
      while plain files add nothing. */
  lemma ScanInvariant(names: seq<string>, dir: Listing)
    ensures var st := Scan(names, dir);
      UniqueIds(st.results) && st.seen == IdSet(st.results) &&
      st.processed == |st.results| &&
      st.processed + st.skipped + st.duplicates == FolderCount(names, dir)
  {
    ScanIsReference(names, dir);
    DedupIds(ValidRecords(names, dir));
  }

  /** A folder's verdict follows the order of the checks: no manifest, then
      an unreadable one, then a falsy uuid, a falsy version, a taken id; only
      a folder passing them all is accepted, with its uuid and version. */
  lemma JudgeAcceptsValid(e: Entry, seen: set<string>)
    requires e.Dir?
    ensures Judge(e.manifest, seen).Accepted? <==> ValidEntry(e) && e.manifest.uuid.value !in seen
    ensures Judge(e.manifest, seen).Duplicate? <==> ValidEntry(e) && e.manifest.uuid.value in seen
    ensures Judge(e.manifest, seen).Accepted? ==> Judge(e.manifest, seen).record == RecordOf(e)
    ensures Judge(e.manifest, seen) == NoManifest <==> e.manifest.Missing?
  {
  }

  // ---------------------------------------------------------------------
  // The previous index file

  /** One element of the previous index as `json.load` gave it: an object with
      a `pack_id` (the version is what this program writes next to it), an
      element without that key, or an element on which the membership test or
      the lookup raises. */
  datatype JsonEntry = Indexed(record: PackRecord) | Unkeyed | Faulty

  /** The output file before the scan: absent, present but unreadable (not
      JSON, or not a list), or a list of entries. */
  datatype IndexFile = NoFile | Garbled | Json(entries: seq<JsonEntry>)

  /** The ids the `for entry in existing_data` loop collects: the exception
      that a faulty entry raises ends the loop but keeps the ids added before
      it. */
  function IdsBeforeFault(es: seq<JsonEntry>): set<string>
  {
    if es == [] then {}
    else
      match es[0]
      case Indexed(r) => {r.packId} + IdsBeforeFault(es[1..])
      case Unkeyed => IdsBeforeFault(es[1..])
      case Faulty => {}
  }

  function ExistingIds(f: IndexFile): set<string>
  {
    match f
    case Json(es) => IdsBeforeFault(es)
    case _ => {}
  }

  /** Every id of every `pack_id` entry. */
  function KeyedIds(es: seq<JsonEntry>): set<string>
  {
    set e | e in es && e.Indexed? :: e.record.packId
  }

  /** Previous ids come only from entries with a `pack_id`; they are all of
      them unless a faulty entry cut the loop short. */
  lemma {:induction false} ExistingIdsAreKeyed(es: seq<JsonEntry>)
    ensures IdsBeforeFault(es) <= KeyedIds(es)
    ensures Faulty !in es ==> IdsBeforeFault(es) == KeyedIds(es)
  {
    if es != [] {
      ExistingIdsAreKeyed(es[1..]);
      assert es == [es[0]] + es[1..];
      assert forall e :: e in es <==> e == es[0] || e in es[1..];
    }
  }

  /** The previous index contributes ids only from its `pack_id` entries, all
      of them when no entry is faulty; an absent or unreadable file
      contributes none. */
  lemma PreviousIds(f: IndexFile)
    ensures !f.Json? ==> ExistingIds(f) == {}
    ensures f.Json? ==> ExistingIds(f) <= KeyedIds(f.entries)
    ensures f.Json? && Faulty !in f.entries ==> ExistingIds(f) == KeyedIds(f.entries)
  {
    if f.Json? {
      ExistingIdsAreKeyed(f.entries);
    }
  }

  /** The file `json.dump(results)` writes. */
  function IndexOf(rs: seq<PackRecord>): IndexFile
  {
    Json(Entries(rs))
  }

  function Entries(rs: seq<PackRecord>): seq<JsonEntry>
  {
    if rs == [] then [] else [Indexed(rs[0])] + Entries(rs[1..])
  }

  /** Reading back a written index gives exactly the ids that were written. */
  lemma {:induction false} IndexRoundTrip(rs: seq<PackRecord>)
    ensures ExistingIds(IndexOf(rs)) == IdSet(rs)
  {
    EntriesIds(rs);
  }

  lemma {:induction false} EntriesIds(rs: seq<PackRecord>)
    ensures IdsBeforeFault(Entries(rs)) == IdSet(rs)
  {
    if rs != [] {
      EntriesIds(rs[1..]);
      assert rs == [rs[0]] + rs[1..];
      assert forall x :: x in rs <==> x == rs[0] || x in rs[1..];
      assert Entries(rs)[1..] == Entries(rs[1..]);
    }
  }

  // ---------------------------------------------------------------------
  // The whole reconciliation

  /** What the scan reports: the loop's final state, the removed ids, and
      whether the output file is new. */
  datatype ScanReport = ScanReport(scan: ScanState, removed: set<string>, created: bool)

  /** The scan of `dir` against the previous index `prev`, folders in sorted
      order. */
  ghost function ScanSpec(dir: Listing, prev: IndexFile): ScanReport
  {
    var st := Scan(SortedKeys(dir.Keys), dir);
    ScanReport(st, ExistingIds(prev) - st.seen, prev.NoFile?)
  }

  /** The uuids that the valid folders of a directory carry. */
  function ValidIds(dir: Listing): set<string>
  {
    set n | n in dir && ValidEntry(dir[n]) :: dir[n].manifest.uuid.value
  }

  /** An id is reported removed exactly when the previous index had it and no
      folder of the directory carries it now; so no removed id is in the new
      results. */
  lemma RemovedAreOrphans(dir: Listing, prev: IndexFile)
    ensures var rep := ScanSpec(dir, prev);
      rep.removed == ExistingIds(prev) - ValidIds(dir) &&
      (forall r :: r in rep.scan.results ==> r.packId !in rep.removed)
  {
    var names := SortedKeys(dir.Keys);
    ScanIsReference(names, dir);
    ValidIdsAreScanned(dir);
    var st := Scan(names, dir);
    forall r | r in st.results ensures r.packId in st.seen {
      IdSetMember(st.results, r);
      DedupIds(ValidRecords(names, dir));
    }
  }

  lemma IdSetMember(rs: seq<PackRecord>, r: PackRecord)
    requires r in rs
    ensures r.packId in IdSet(rs)
  {
  }

  /** The uuids of the valid folders are those of the records of a sorted
      scan. */
  lemma ValidIdsAreScanned(dir: Listing)
    ensures ValidIds(dir) == IdSet(ValidRecords(SortedKeys(dir.Keys), dir))
  {
    var names := SortedKeys(dir.Keys);
    ValidRecordsFromFolders(names, dir);
    forall id | id in ValidIds(dir)
      ensures exists i :: 0 <= i < |names| && Carries(dir, names[i], id)
    {
      var n :| n in dir && ValidEntry(dir[n]) && dir[n].manifest.uuid.value == id;
      assert n in names;
      var i :| 0 <= i < |names| && names[i] == n;
      assert Carries(dir, names[i], id);
    }
  }

  /** The index is overwritten with the results, never merged, so scanning
      the same directory again reports nothing removed and the same results. */
  lemma RescanReportsNoRemovals(dir: Listing, prev: IndexFile)
    ensures var rep := ScanSpec(dir, prev);
      var again := ScanSpec(dir, IndexOf(rep.scan.results));
      again.removed == {} && !again.created && again.scan == rep.scan
  {
    var rep := ScanSpec(dir, prev);
    IndexRoundTrip(rep.scan.results);
    ScanInvariant(SortedKeys(dir.Keys), dir);
  }

  // ---------------------------------------------------------------------
  // The methods

  /** The `for entry in existing_data` loop, stopped by the first faulty
      entry. */
  method ReadExistingIds(prev: IndexFile) returns (ids: set<string>)
    ensures ids == ExistingIds(prev)
  {
    ids := {};
    if !prev.Json? {
      return;
    }
    var es := prev.entries;
    var i := 0;
    while i < |es|
      invariant 0 <= i <= |es|
      invariant ids + IdsBeforeFault(es[i..]) == IdsBeforeFault(es)
    {
      assert es[i..][1..] == es[i + 1..];
      match es[i] {
        case Faulty =>
          return;
        case Unkeyed =>
        case Indexed(r) =>
          ids := ids + {r.packId};
      }
      i := i + 1;
    }
  }

  /** The loop over the sorted subdirectories. */
  method ScanFolders(dir: Listing) returns (st: ScanState)
    ensures st == Scan(SortedKeys(dir.Keys), dir)
  {
    var names := SortNames(dir.Keys);
    st := ScanNames(names, dir);
  }

  /** The loop body over the listed names, in order. */
  method ScanNames(names: seq<string>, dir: Listing) returns (st: ScanState)
    requires forall i :: 0 <= i < |names| ==> names[i] in dir
    ensures st == Scan(names, dir)
  {
    var results: seq<PackRecord> := [];
    var seen: set<string> := {};
    var processed, skipped, duplicates := 0, 0, 0;
    var log: seq<LogLine> := [];
    for i := 0 to |names|
      invariant ScanState(results, seen, processed, skipped, duplicates, log) == Scan(names[..i], dir)
    {
      assert names[..i + 1][..i] == names[..i];
      ghost var before := ScanState(results, seen, processed, skipped, duplicates, log);
      assert Scan(names[..i + 1], dir) == Visit(before, names[i], dir);
      var folder := names[i];
      if dir[folder].File? {
        continue;
      }
      var manifest := dir[folder].manifest;
      if manifest.Missing? {
        log := log + [LogLine(folder, NoManifest)];
        skipped := skipped + 1;
        continue;
      }
      if manifest.Malformed? {
        log := log + [LogLine(folder, Unreadable)];
        skipped := skipped + 1;
        continue;
      }
      var packId := manifest.uuid;
      var version := manifest.version;
      if packId.None? || packId.value == [] {
        log := log + [LogLine(folder, NoUuid)];
        skipped := skipped + 1;
        continue;
      }
      if version.None? || version.value == [] {
        log := log + [LogLine(folder, NoVersion)];
        skipped := skipped + 1;
        continue;
      }
      if packId.value in seen {
        log := log + [LogLine(folder, Duplicate(packId.value))];
        duplicates := duplicates + 1;
        continue;
      }
      seen := seen + {packId.value};
      var record := PackRecord(packId.value, version.value);
      results := results + [record];
      log := log + [LogLine(folder, Accepted(record))];
      processed := processed + 1;
    }
    assert names[..|names|] == names;
    st := ScanState(results, seen, processed, skipped, duplicates, log);
  }

  /** The index file, overwritten in place. */
  class OutputFile {
    var content: IndexFile

    constructor (content: IndexFile)
      ensures this.content == content
    {
      this.content := content;
    }
  }

  /** `scan_packs`: nothing happens and the answer is false when the packs
      directory is absent; otherwise the previous ids are read, the folders
      scanned, the removed ids computed and the index replaced by the
      results. */
  method ScanPacks(packsDir: Option<Listing>, output: OutputFile)
    returns (ok: bool, report: Option<ScanReport>)
    modifies output
    ensures packsDir.None? ==> !ok && report.None? && output.content == old(output.content)
    ensures packsDir.Some? ==>
      ok && report == Some(ScanSpec(packsDir.value, old(output.content))) &&
      output.content == IndexOf(report.value.scan.results)
  {
    if packsDir.None? {
      return false, None;
    }
    var r := Reconcile(packsDir.value, output);
    return true, Some(r);
  }

  /** The body shared by both scanners once the directory is known to
      exist. */
  method Reconcile(dir: Listing, output: OutputFile) returns (report: ScanReport)
    modifies output
    ensures report == ScanSpec(dir, old(output.content))
    ensures output.content == IndexOf(report.scan.results)
  {
    var isNewFile := output.content.NoFile?;
    var existing := ReadExistingIds(output.content);
    var st := ScanFolders(dir);
    var removed := existing - st.seen;
    output.content := IndexOf(st.results);
    report := ScanReport(st, removed, isNewFile);
  }
}
