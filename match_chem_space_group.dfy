/** `match_chem_space_group.py`: for every CIF in a directory (or in a zip
    archive unpacked to a temporary directory), the dataset rows with the same
    atomic numbers counted with multiplicity and the same space group symbol.

    Reading a CIF is two library calls, `ase.io.read` for the atomic numbers
    and pymatgen's `SpacegroupAnalyzer` for the space group; each is a
    parameter that either gives its value or raises. */
module MatchSpaceGroup {
  import opened Wrappers
  import opened Text
  import opened Dicts
  import opened CifMatching

  /** `Counter(row["atomic_numbers"]) == Counter(target) and row["space_group"] == space_group` */
  predicate Matches(row: Row, target: seq<int>, spaceGroup: string) {
    multiset(row.atomicNumbers) == multiset(target) && row.spaceGroup == spaceGroup
  }

  /** `find_matches`: the dataset rows with the target's atomic numbers, each
      as often, and the given space group, in dataset order. */
  function FindMatches(dataset: seq<Row>, target: seq<int>, spaceGroup: string): (r: seq<Row>)
    ensures forall x :: x in r <==> x in dataset && multiset(x.atomicNumbers) == multiset(target) && x.spaceGroup == spaceGroup
    ensures forall i :: 0 <= i < |r| ==> Matches(r[i], target, spaceGroup)
  {
    Filter(dataset, row => Matches(row, target, spaceGroup))
  }

  /** Only the counts of the target's atomic numbers matter, not their order. */
  lemma {:induction false} FindMatchesIgnoresOrder(dataset: seq<Row>, a: seq<int>, b: seq<int>, spaceGroup: string)
    requires multiset(a) == multiset(b)
    ensures FindMatches(dataset, a, spaceGroup) == FindMatches(dataset, b, spaceGroup)
    decreases |dataset|
  {
    if dataset != [] {
      var init := dataset[..|dataset| - 1];
      FindMatchesIgnoresOrder(init, a, b, spaceGroup);
      assert FindMatches(init, a, spaceGroup) == Filter(init, row => Matches(row, a, spaceGroup));
    }
  }

  /** The counts do matter: two oxygens and a hydrogen do not match one of each. */
  lemma CountsMatter()
    ensures !Matches(Row([8, 8, 1], "P1"), [8, 1], "P1")
  {
    assert 8 in multiset([8, 8, 1]) && multiset([8, 8, 1])[8] == 2;
    assert multiset([8, 1])[8] == 1;
  }

  // -----------------------------------------------------------------------
  // Where the CIFs are

  /** What `os.path.isfile` and `os.path.isdir` say about a path. */
  datatype PathKind = RegularFile | Directory | NoSuchPath

  /** A regular file whose name ends in `.zip` in any case. */
  predicate IsArchive(path: string, kind: PathKind) {
    kind == RegularFile && EndsWith(Lower(path), ".zip")
  }

  /** `get_cif_directory`: an archive is unpacked by `extract_zip_to_temp`,
      whose outcome `unzip` is the fresh directory `tempfile.mkdtemp` picked
      or the exception `zipfile` raises for a corrupt or unreadable archive;
      a directory is used as it is, and anything else raises `ValueError`. */
  function GetCifDirectory(path: string, kind: PathKind, unzip: Outcome<string>): (r: Outcome<string>)
    ensures r.Ok? <==> kind == Directory || (IsArchive(path, kind) && unzip.Ok?)
    ensures IsArchive(path, kind) ==> r == unzip
    ensures kind == Directory ==> r == Ok(path)
    ensures !IsArchive(path, kind) && kind != Directory ==> r == Raised(ValueError)
  {
    if IsArchive(path, kind) then unzip
    else if kind == Directory then Ok(path)
    else Raised(ValueError)
  }

  /** The archive test ignores case: a path and its lower-case spelling are
      accepted or refused alike. */
  lemma GetCifDirectoryIgnoresCase(path: string, kind: PathKind, unzip: Outcome<string>)
    ensures IsArchive(path, kind) <==> IsArchive(Lower(path), kind)
    ensures GetCifDirectory(path, kind, unzip).Ok? == GetCifDirectory(Lower(path), kind, unzip).Ok?
  {
    LowerIdempotent(path);
  }

  /** An upper-case `.ZIP` archive is unpacked too. */
  lemma UpperCaseArchiveAccepted(stem: string, unzip: Outcome<string>)
    ensures GetCifDirectory(stem + ".ZIP", RegularFile, unzip) == unzip
  {
    var p := stem + ".ZIP";
    var l := Lower(p);
    assert l[|l| - 4..] == ".zip" by {
      assert l[|l| - 4] == LowerChar(p[|p| - 4]) == '.';
      assert l[|l| - 3] == LowerChar(p[|p| - 3]) == LowerChar('Z') == 'z';
      assert l[|l| - 2] == LowerChar(p[|p| - 2]) == LowerChar('I') == 'i';
      assert l[|l| - 1] == LowerChar(p[|p| - 1]) == LowerChar('P') == 'p';
    }
  }

  // -----------------------------------------------------------------------
  // Matching the CIFs

  /** One element of `results[fname]`. */
  datatype Entry = Entry(atomicNumbers: seq<int>, spaceGroup: string, matches: seq<Row>)

  /** The `try` block for one CIF: its atomic numbers, then its space group,
      then the matches; `None` when a reader raises (the `except` logs and
      moves on) or when nothing matches. When there is an entry, its
      matches are exactly the dataset rows that match what was read. */
  function Examine(path: string, readAtoms: string -> Outcome<seq<int>>,
                   readSpaceGroup: string -> Outcome<string>, dataset: seq<Row>): (r: Option<Entry>)
    ensures r.Some? <==> readAtoms(path).Ok? && readSpaceGroup(path).Ok?
                         && exists x :: x in dataset && Matches(x, readAtoms(path).value, readSpaceGroup(path).value)
    ensures r.Some? ==> r.value.atomicNumbers == readAtoms(path).value && r.value.spaceGroup == readSpaceGroup(path).value
    ensures r.Some? ==> forall x :: x in r.value.matches <==> x in dataset && Matches(x, r.value.atomicNumbers, r.value.spaceGroup)
  {
    match readAtoms(path)
    case Raised(_) => None
    case Ok(atoms) =>
      match readSpaceGroup(path)
      case Raised(_) => None
      case Ok(spaceGroup) =>
        var matches := FindMatches(dataset, atoms, spaceGroup);
        if |matches| > 0 then
          assert matches[0] in matches;
          Some(Entry(atoms, spaceGroup, matches))
        else None
  }

  /** `Examine` for a name listed in `dir`. */
  function ExamineIn(dir: string, readAtoms: string -> Outcome<seq<int>>,
                     readSpaceGroup: string -> Outcome<string>, dataset: seq<Row>): string -> Option<Entry>
  {
    fname => Examine(PathJoin(dir, fname), readAtoms, readSpaceGroup, dataset)
  }

  /** `process_cif_directory`: `results[fname]` holds one entry for each
      listed `.cif` name whose file could be read and has matches, and there
      are no other keys. */
  method ProcessCifDirectory(dir: string, names: seq<string>, readAtoms: string -> Outcome<seq<int>>,
                             readSpaceGroup: string -> Outcome<string>, dataset: seq<Row>)
    returns (results: Dict<string, seq<Entry>>)
    requires Distinct(names)
    ensures results.Valid()
    ensures results.order == Recorded(names, ExamineIn(dir, readAtoms, readSpaceGroup, dataset))
    ensures forall n :: n in results.entries <==>
      n in names && IsCifName(n) && Examine(PathJoin(dir, n), readAtoms, readSpaceGroup, dataset).Some?
    ensures forall n :: n in results.entries ==>
      results.entries[n] == [Examine(PathJoin(dir, n), readAtoms, readSpaceGroup, dataset).value]
  {
    results := CollectEntries(names, ExamineIn(dir, readAtoms, readSpaceGroup, dataset));
  }

  // -----------------------------------------------------------------------
  // The script

  /** The `__main__` block, up to the printing: fewer than two arguments exit
      with status 1, as does a path that is neither a directory nor a zip
      archive, or an archive that cannot be unpacked (the exception is not
      caught); otherwise the CIFs listed in the chosen directory are
      matched. `kindOf`, `unzip` and `listing` stand for the file system,
      `dataset` for the loaded training split. */
  method MatchCifs(argv: seq<string>, kindOf: string -> PathKind, unzip: Outcome<string>,
                   listing: string -> seq<string>, readAtoms: string -> Outcome<seq<int>>,
                   readSpaceGroup: string -> Outcome<string>, dataset: seq<Row>)
    returns (status: int, matched: Option<Dict<string, seq<Entry>>>)
    requires forall d :: Distinct(listing(d))
    ensures status == 0 || status == 1
    ensures status == 0 <==> |argv| >= 2 && GetCifDirectory(argv[1], kindOf(argv[1]), unzip).Ok?
    ensures matched.Some? <==> status == 0
    ensures status == 0 ==>
      var dir := GetCifDirectory(argv[1], kindOf(argv[1]), unzip).value;
      && matched.value.Valid()
      && (forall n :: n in matched.value.entries <==>
            n in listing(dir) && IsCifName(n) && Examine(PathJoin(dir, n), readAtoms, readSpaceGroup, dataset).Some?)
      && (forall n :: n in matched.value.entries ==>
            matched.value.entries[n] == [Examine(PathJoin(dir, n), readAtoms, readSpaceGroup, dataset).value])
  {
    if |argv| < 2 {
      return 1, None;
    }
    var cifDirectory := GetCifDirectory(argv[1], kindOf(argv[1]), unzip);
    if cifDirectory.Raised? {
      return 1, None;
    }
    var results := ProcessCifDirectory(cifDirectory.value, listing(cifDirectory.value), readAtoms, readSpaceGroup, dataset);
    return 0, Some(results);
  }
}
