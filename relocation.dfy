/** Moving a pack folder into a role directory: the collision-free name
    `base_k` chosen by `get_unique_folder_name`, and the three-way conflict
    policy of `move_folder_to_destination`. */
module Relocation {
  import opened PackFs

  // ---------------------------------------------------------------------
  // Decimal numerals, as `f"{counter}"` writes a positive counter

  function DigitChar(d: nat): char
    requires d < 10
  {
    ('0' as int + d) as char
  }

  function DigitValue(c: char): nat
  {
    if '0' <= c <= '9' then c as int - '0' as int else 0
  }

  function Decimal(n: nat): (r: string)
    ensures |r| >= 1
  {
    if n < 10 then [DigitChar(n)] else Decimal(n / 10) + [DigitChar(n % 10)]
  }

  function ParseDecimal(s: string): nat
  {
    if s == [] then 0 else ParseDecimal(s[..|s| - 1]) * 10 + DigitValue(s[|s| - 1])
  }

  /** Reading a numeral back gives the number that was written. */
  lemma {:induction false} ParseDecimalInverts(n: nat)
    ensures ParseDecimal(Decimal(n)) == n
  {
    if n >= 10 {
      var s := Decimal(n / 10) + [DigitChar(n % 10)];
      assert s[..|s| - 1] == Decimal(n / 10);
      ParseDecimalInverts(n / 10);
    }
  }

  /** The candidate name `base_k`. */
  function Suffixed(base: string, k: nat): string
  {
    base + "_" + Decimal(k)
  }

  lemma SuffixedInjective(base: string, j: nat, k: nat)
    requires Suffixed(base, j) == Suffixed(base, k)
    ensures j == k
  {
    assert Decimal(j) == Suffixed(base, j)[|base| + 1..];
    assert Decimal(k) == Suffixed(base, k)[|base| + 1..];
    ParseDecimalInverts(j);
    ParseDecimalInverts(k);
  }

  /** The names `base_1` .. `base_(k-1)`. */
  ghost function Tried(base: string, k: nat): set<string>
  {
    set j | 1 <= j < k :: Suffixed(base, j)
  }

  lemma {:induction false} TriedSize(base: string, k: nat)
    requires 1 <= k
    ensures |Tried(base, k)| == k - 1
  {
    if k > 1 {
      TriedSize(base, k - 1);
      assert Tried(base, k) == Tried(base, k - 1) + {Suffixed(base, k - 1)};
      if Suffixed(base, k - 1) in Tried(base, k - 1) {
        var j :| 1 <= j < k - 1 && Suffixed(base, j) == Suffixed(base, k - 1);
        SuffixedInjective(base, j, k - 1);
      }
    } else {
      assert Tried(base, k) == {};
    }
  }

  /** A finite directory holds at most as many of the names `base_1`,
      `base_2`, ... as it has entries, so the counter is bounded. */
  lemma OccupiedBound(entries: Listing, base: string, k: nat)
    requires 1 <= k
    requires forall j :: 1 <= j < k ==> Suffixed(base, j) in entries
    ensures k - 1 <= |entries|
  {
    TriedSize(base, k);
    SubsetSize(Tried(base, k), entries.Keys);
  }

  lemma {:induction false} SubsetSize<T>(a: set<T>, b: set<T>)
    requires a <= b
    ensures |a| <= |b|
    decreases a
  {
    if a != {} {
      var x :| x in a;
      SubsetSize(a - {x}, b - {x});
    }
  }

  /** The first free counter from `k` on. */
  function FreeCounterFrom(entries: Listing, base: string, k: nat): (r: nat)
    requires 1 <= k
    requires forall j :: 1 <= j < k ==> Suffixed(base, j) in entries
    ensures k <= r && Suffixed(base, r) !in entries
    ensures forall j :: 1 <= j < r ==> Suffixed(base, j) in entries
    decreases |entries| + 1 - k
  {
    OccupiedBound(entries, base, k);
    if Suffixed(base, k) !in entries then k
    else
      OccupiedBound(entries, base, k + 1);
      FreeCounterFrom(entries, base, k + 1)
  }

  /** The least k >= 1 with `base_k` absent from the directory. */
  function LeastFreeCounter(entries: Listing, base: string): (k: nat)
    ensures 1 <= k && Suffixed(base, k) !in entries
    ensures forall j :: 1 <= j < k ==> Suffixed(base, j) in entries
  {
    FreeCounterFrom(entries, base, 1)
  }

  function UniqueFolderName(entries: Listing, base: string): string
  {
    Suffixed(base, LeastFreeCounter(entries, base))
  }

  // ---------------------------------------------------------------------
  // The conflict policy

  datatype Conflict = Overwrite | Skip | Rename

  /** What `move_folder_to_destination` reports, with the destination's new
      contents. */
  datatype MoveResult = MoveResult(success: bool, finalName: string, entries: Listing)

  /** Moving a folder holding `content` into a directory under `folderName`;
      `answer` is the reply to the conflict prompt, which is consulted only
      when the name is taken. An overwrite deletes the old entry and puts the
      new one in its place. */
  function MoveFolder(entries: Listing, folderName: string, content: Entry,
                      answer: Conflict): MoveResult
  {
    if folderName !in entries then
      MoveResult(true, folderName, entries[folderName := content])
    else
      match answer
      case Skip => MoveResult(false, folderName, entries)
      case Overwrite => MoveResult(true, folderName, entries[folderName := content])
      case Rename =>
        var newName := UniqueFolderName(entries, folderName);
        MoveResult(true, newName, entries[newName := content])
  }

  /** What a move does to the destination for each answer: a free name takes
      the folder whatever the answer; on a taken name, Skip fails and changes
      nothing, Overwrite replaces the entry under the requested name, and
      Rename adds the folder under the least free `base_k`. A successful move
      leaves every other entry as it was, and no move removes a name. */
  lemma MovePolicy(entries: Listing, folderName: string, content: Entry, answer: Conflict)
    ensures var m := MoveFolder(entries, folderName, content, answer);
      (folderName in entries && answer == Skip ==>
         !m.success && m.entries == entries && m.finalName == folderName) &&
      (folderName in entries && answer == Overwrite ==>
         m.success && m.finalName == folderName) &&
      (folderName in entries && answer == Rename ==>
         m.success && m.finalName == UniqueFolderName(entries, folderName)) &&
      (!m.success ==> m.entries == entries && m.finalName == folderName &&
                      folderName in entries && answer == Skip) &&
      (m.success ==> m.entries == entries[m.finalName := content]) &&
      (m.success && m.finalName != folderName ==>
         folderName in entries && answer == Rename &&
         m.finalName !in entries && m.entries[folderName] == entries[folderName]) &&
      (folderName !in entries ==> m.success && m.finalName == folderName) &&
      entries.Keys <= m.entries.Keys &&
      |m.entries.Keys| <= |entries.Keys| + (if m.success then 1 else 0)
  {
    var m := MoveFolder(entries, folderName, content, answer);
    if folderName in entries && answer == Rename {
      var newName := UniqueFolderName(entries, folderName);
      assert newName != folderName by {
        assert newName !in entries;
      }
    }
    if m.success {
      assert m.entries.Keys == entries.Keys + {m.finalName};
    }
  }

  /** The rename answer: `base_k` for the least k >= 1 such that `base_k` is
      not taken, so that the existing entries are kept. */
  lemma RenameTakesLeastFreeName(entries: Listing, base: string, content: Entry, k: nat)
    requires base in entries
    requires 1 <= k && Suffixed(base, k) !in entries
    requires forall j :: 1 <= j < k ==> Suffixed(base, j) in entries
    ensures MoveFolder(entries, base, content, Rename).finalName == Suffixed(base, k)
  {
  }

  // ---------------------------------------------------------------------
  // The destination directory, changed in place

  class Directory {
    const name: string
    var entries: Listing

    constructor (name: string, entries: Listing)
      ensures this.name == name && this.entries == entries
    {
      this.name := name;
      this.entries := entries;
    }
  }

  /** `get_unique_folder_name`: counts up from 1 until `base_counter` is not
      in the directory. */
  method GetUniqueFolderName(destination: Directory, base: string) returns (name: string)
    ensures name !in destination.entries
    ensures name == Suffixed(base, LeastFreeCounter(destination.entries, base))
  {
    var counter: nat := 1;
    name := Suffixed(base, counter);
    while name in destination.entries
      invariant 1 <= counter <= |destination.entries| + 1
      invariant name == Suffixed(base, counter)
      invariant forall j :: 1 <= j < counter ==> Suffixed(base, j) in destination.entries
      invariant FreeCounterFrom(destination.entries, base, counter)
                == LeastFreeCounter(destination.entries, base)
      decreases |destination.entries| + 1 - counter
    {
      OccupiedBound(destination.entries, base, counter + 1);
      counter := counter + 1;
      name := Suffixed(base, counter);
    }
  }

  /** `move_folder_to_destination`: moves the folder holding `source` into
      `destination` under `folderName`, acting on `answer` when that name is
      taken. */
  method MoveFolderToDestination(source: Entry, destination: Directory, folderName: string,
                                 answer: Conflict)
    returns (success: bool, finalName: string)
    modifies destination
    ensures MoveResult(success, finalName, destination.entries)
            == MoveFolder(old(destination.entries), folderName, source, answer)
  {
    finalName := folderName;
    if finalName in destination.entries {
      var action := answer;
      if action == Skip {
        return false, finalName;
      } else if action == Overwrite {
        destination.entries := map k | k in destination.entries && k != finalName
                                 :: destination.entries[k];
      } else {
        finalName := GetUniqueFolderName(destination, finalName);
      }
    }
    destination.entries := destination.entries[finalName := source];
    success := true;
  }
}
