/** `match_chem.py`: for every CIF in a fixed directory, the dataset rows
    made of the same chemical elements, whatever their counts. Reading the
    atomic numbers of a CIF (`ase.io.read`) is a parameter that either gives
    them or raises. */
module MatchChem {
  import opened Wrappers
  import opened Text
  import opened Dicts
  import opened Sorting
  import opened CifMatching
  import MatchSpaceGroup

  /** `sorted(atoms.get_atomic_numbers())`: the atomic numbers in
      non-decreasing order, each as often as in the structure. */
  function SortedAtomicNumbers(atoms: seq<int>): (r: seq<int>)
    ensures forall i, j :: 0 <= i < j < |r| ==> r[i] <= r[j]
    ensures multiset(r) == multiset(atoms)
  {
    IntLessStrictTotal();
    Sort(atoms, IntLess)
  }

  /** There is only one such list: any non-decreasing rearrangement of the
      atomic numbers is the one `sorted` returns. */
  lemma SortedAtomicNumbersUnique(atoms: seq<int>, s: seq<int>)
    requires forall i, j :: 0 <= i < j < |s| ==> s[i] <= s[j]
    requires multiset(s) == multiset(atoms)
    ensures s == SortedAtomicNumbers(atoms)
  {
    IntLessStrictTotal();
    assert Sorted(s, IntLess);
    SortedUnique(s, SortedAtomicNumbers(atoms), IntLess);
  }

  /** Python's `set(list)`. */
  function Elements(s: seq<int>): set<int> {
    set x | x in s
  }

  /** `set(row["atomic_numbers"]) == set(target_list)` */
  predicate SameElements(row: Row, target: seq<int>) {
    Elements(row.atomicNumbers) == Elements(target)
  }

  /** The sets are equal exactly when every element of either list occurs in
      the other. */
  lemma SameElementsIff(row: Row, target: seq<int>)
    ensures SameElements(row, target) <==> forall z :: z in row.atomicNumbers <==> z in target
  {
    if forall z :: z in row.atomicNumbers <==> z in target {
      assert Elements(row.atomicNumbers) == Elements(target);
    }
    if SameElements(row, target) {
      forall z
        ensures z in row.atomicNumbers <==> z in target
      {
        assert z in row.atomicNumbers <==> z in Elements(row.atomicNumbers);
      }
    }
  }

  /** `find_matches`: the dataset rows holding exactly the target's
      elements, in dataset order. */
  function FindMatches(dataset: seq<Row>, target: seq<int>): (r: seq<Row>)
    ensures forall x :: x in r <==> x in dataset && SameElements(x, target)
    ensures forall i :: 0 <= i < |r| ==> Elements(r[i].atomicNumbers) == Elements(target)
  {
    Filter(dataset, row => SameElements(row, target))
  }

  /** Sorting a list keeps its set of elements. */
  lemma SortingKeepsElements(atoms: seq<int>)
    ensures Elements(SortedAtomicNumbers(atoms)) == Elements(atoms)
  {
    var s := SortedAtomicNumbers(atoms);
    forall z
      ensures z in s <==> z in atoms
    {
      assert z in s <==> z in multiset(s);
      assert z in atoms <==> z in multiset(atoms);
    }
  }

  /** Sorting the atomic numbers first does not change what matches. */
  lemma {:induction false} SortingKeepsMatches(dataset: seq<Row>, atoms: seq<int>)
    ensures FindMatches(dataset, SortedAtomicNumbers(atoms)) == FindMatches(dataset, atoms)
    decreases |dataset|
  {
    SortingKeepsElements(atoms);
    if dataset != [] {
      SortingKeepsMatches(dataset[..|dataset| - 1], atoms);
    }
  }

  /** A row that matches under the other script's test, same counts and the
      same space group, matches here too. */
  lemma SpaceGroupMatchIsElementMatch(row: Row, target: seq<int>, spaceGroup: string)
    requires MatchSpaceGroup.Matches(row, target, spaceGroup)
    ensures SameElements(row, target)
  {
    forall z
      ensures z in row.atomicNumbers <==> z in target
    {
      assert z in row.atomicNumbers <==> z in multiset(row.atomicNumbers);
      assert z in target <==> z in multiset(target);
    }
    SameElementsIff(row, target);
  }

  /** So the other script finds a part of what this one finds. */
  lemma SpaceGroupMatchesIncluded(dataset: seq<Row>, target: seq<int>, spaceGroup: string)
    ensures forall x :: x in MatchSpaceGroup.FindMatches(dataset, target, spaceGroup) ==> x in FindMatches(dataset, target)
  {
    forall x | x in MatchSpaceGroup.FindMatches(dataset, target, spaceGroup)
      ensures x in FindMatches(dataset, target)
    {
      SpaceGroupMatchIsElementMatch(x, target, spaceGroup);
    }
  }

  /** The part can be strict: counts are ignored here, so two oxygens and a
      hydrogen match one of each. */
  lemma CountsIgnored()
    ensures SameElements(Row([8, 8, 1], "P1"), [8, 1])
    ensures !MatchSpaceGroup.Matches(Row([8, 8, 1], "P1"), [8, 1], "P1")
  {
    assert Elements([8, 8, 1]) == {1, 8};
    assert Elements([8, 1]) == {1, 8};
    MatchSpaceGroup.CountsMatter();
  }

  // -----------------------------------------------------------------------
  // Matching the CIFs

  /** One element of `results[fname]`. */
  datatype Entry = Entry(atomicNumbers: seq<int>, matches: seq<Row>)

  /** The `try` block for one CIF: its sorted atomic numbers, then the
      matches; `None` when reading raises or nothing matches. An entry lists
      the atomic numbers sorted and all the rows with the same elements. */
  function Examine(path: string, readAtoms: string -> Outcome<seq<int>>, dataset: seq<Row>): (r: Option<Entry>)
    ensures r.Some? <==> readAtoms(path).Ok? && exists x :: x in dataset && SameElements(x, readAtoms(path).value)
    ensures r.Some? ==> r.value.atomicNumbers == SortedAtomicNumbers(readAtoms(path).value)
    ensures r.Some? ==> forall x :: x in r.value.matches <==> x in dataset && SameElements(x, readAtoms(path).value)
  {
    match readAtoms(path)
    case Raised(_) => None
    case Ok(atoms) =>
      var atomList := SortedAtomicNumbers(atoms);
      var matches := FindMatches(dataset, atomList);
      SortingKeepsElements(atoms);
      if |matches| > 0 then
        assert matches[0] in matches;
        Some(Entry(atomList, matches))
      else None
  }

  /** `Examine` for a name listed in `dir`. */
  function ExamineIn(dir: string, readAtoms: string -> Outcome<seq<int>>, dataset: seq<Row>): string -> Option<Entry>
  {
    fname => Examine(PathJoin(dir, fname), readAtoms, dataset)
  }

  /** `process_cif_directory`: `results[fname]` holds one entry for each
      listed `.cif` name whose file could be read and has matches, and there
      are no other keys. */
  method ProcessCifDirectory(dir: string, names: seq<string>, readAtoms: string -> Outcome<seq<int>>, dataset: seq<Row>)
    returns (results: Dict<string, seq<Entry>>)
    requires Distinct(names)
    ensures results.Valid()
    ensures results.order == Recorded(names, ExamineIn(dir, readAtoms, dataset))
    ensures forall n :: n in results.entries <==>
      n in names && IsCifName(n) && Examine(PathJoin(dir, n), readAtoms, dataset).Some?
    ensures forall n :: n in results.entries ==>
      results.entries[n] == [Examine(PathJoin(dir, n), readAtoms, dataset).value]
  {
    results := CollectEntries(names, ExamineIn(dir, readAtoms, dataset));
  }

  // -----------------------------------------------------------------------
  // The script

  /** The directory the script reads. */
  const CifDirectory: string := "./results/ml_bulk_modulus/large_batch_novelty/generated_crystals_cif/"

  /** The directory ends in a separator, so a listed (relative) name is
      read from right under it. */
  lemma CifPath(fname: string)
    requires !StartsWith(fname, "/")
    ensures PathJoin(CifDirectory, fname) == CifDirectory + fname
  {
    assert CifDirectory[|CifDirectory| - 1..] == "/";
  }

  /** The `__main__` block, up to the printing: matches the CIFs listed in
      the fixed directory against `dataset`, the loaded training split. */
  method MatchGeneratedCifs(listing: seq<string>, readAtoms: string -> Outcome<seq<int>>, dataset: seq<Row>)
    returns (matched: Dict<string, seq<Entry>>)
    requires Distinct(listing)
    ensures matched.Valid()
    ensures forall n :: n in matched.entries <==>
      n in listing && IsCifName(n) && Examine(PathJoin(CifDirectory, n), readAtoms, dataset).Some?
    ensures forall n :: n in matched.entries ==>
      matched.entries[n] == [Examine(PathJoin(CifDirectory, n), readAtoms, dataset).value]
  {
    matched := ProcessCifDirectory(CifDirectory, listing, readAtoms, dataset);
  }
}
