/** What the two matching scripts share: a dataset row, `Dataset.filter`,
    `os.path.join` of a listed name, the `.cif` test, and the loop over a
    directory listing that fills a `defaultdict(list)`.

    Reading a CIF (ASE, pymatgen) and loading the dataset are outside the
    model: the scripts' readers are parameters, the dataset is a sequence of
    rows. */
module CifMatching {
  import opened Wrappers
  import opened Text
  import opened Dicts

  /** A dataset row: the two columns the scripts compare. */
  datatype Row = Row(atomicNumbers: seq<int>, spaceGroup: string)

  /** `dataset.filter(keep)`: the rows `keep` accepts, in dataset order. */
  function Filter(rows: seq<Row>, keep: Row -> bool): (r: seq<Row>)
    ensures |r| <= |rows|
    ensures forall i :: 0 <= i < |r| ==> keep(r[i])
    ensures forall x :: x in r <==> x in rows && keep(x)
    decreases |rows|
  {
    if rows == [] then []
    else
      var rest := Filter(rows[..|rows| - 1], keep);
      assert forall x :: x in rows <==> x in rows[..|rows| - 1] || x == rows[|rows| - 1];
      if keep(rows[|rows| - 1]) then rest + [rows[|rows| - 1]] else rest
  }

  /** Filtering keeps the dataset's order: filtering two parts one after the
      other gives the filtered whole. */
  lemma {:induction false} FilterAppend(a: seq<Row>, b: seq<Row>, keep: Row -> bool)
    ensures Filter(a + b, keep) == Filter(a, keep) + Filter(b, keep)
    decreases |b|
  {
    if b == [] {
      assert a + b == a;
    } else {
      var init := b[..|b| - 1];
      var last := b[|b| - 1];
      var ab := a + b;
      FilterAppend(a, init, keep);
      assert ab[..|ab| - 1] == a + init;
      assert ab[|ab| - 1] == last;
      FilterLast(ab, keep);
      FilterLast(b, keep);
    }
  }

  lemma FilterLast(rows: seq<Row>, keep: Row -> bool)
    requires rows != []
    ensures Filter(rows, keep)
      == Filter(rows[..|rows| - 1], keep) + (if keep(rows[|rows| - 1]) then [rows[|rows| - 1]] else [])
  {
  }

  /** `os.path.join(dir, name)`: an absolute name replaces the directory, and
      a separator is added unless the directory is empty or ends in one. */
  function PathJoin(dir: string, name: string): (p: string)
    ensures EndsWith(p, name)
  {
    if StartsWith(name, "/") then name
    else if dir == [] || EndsWith(dir, "/") then
      assert (dir + name)[|dir + name| - |name|..] == name;
      dir + name
    else
      assert (dir + "/" + name)[|dir + "/" + name| - |name|..] == name;
      dir + "/" + name
  }

  /** `fname.endswith(".cif")`: the only names the scripts look at. */
  predicate IsCifName(name: string) {
    EndsWith(name, ".cif")
  }

  /** `os.listdir` lists each name once. */
  predicate Distinct(names: seq<string>) {
    forall i, j :: 0 <= i < j < |names| ==> names[i] != names[j]
  }

  /** The names that get an entry, in listing order: the `.cif` names for
      which `examine` gives one. */
  function Recorded<E>(names: seq<string>, examine: string -> Option<E>): (r: seq<string>)
    ensures forall n :: n in r <==> n in names && IsCifName(n) && examine(n).Some?
    decreases |names|
  {
    if names == [] then []
    else
      var init := names[..|names| - 1];
      var n := names[|names| - 1];
      assert forall m :: m in names <==> m in init || m == n;
      if IsCifName(n) && examine(n).Some? then Recorded(init, examine) + [n] else Recorded(init, examine)
  }

  lemma RecordedStep<E>(names: seq<string>, i: nat, examine: string -> Option<E>)
    requires i < |names|
    ensures Recorded(names[..i + 1], examine)
      == if IsCifName(names[i]) && examine(names[i]).Some? then Recorded(names[..i], examine) + [names[i]]
         else Recorded(names[..i], examine)
  {
    assert names[..i + 1][..i] == names[..i];
  }

  /** One turn of `CollectEntries`' loop, on a name not listed before. */
  method CollectEntry<E>(seen: seq<string>, fname: string, examine: string -> Option<E>,
                         results: Dict<string, seq<E>>)
    returns (results': Dict<string, seq<E>>)
    requires fname !in seen
    requires results.Valid() && results.order == Recorded(seen, examine)
    requires forall n :: n in results.entries ==> results.entries[n] == [examine(n).value]
    ensures results'.Valid()
    ensures results'.order == if IsCifName(fname) && examine(fname).Some? then results.order + [fname] else results.order
    ensures forall n :: n in results'.entries ==> results'.entries[n] == [examine(n).value]
  {
    results' := results;
    if IsCifName(fname) {
      var entry := examine(fname);
      if entry.Some? {
        // `fname` was not listed before, so `results[fname]` starts empty.
        assert fname !in results.entries;
        results' := results.Assign(fname, [entry.value]);
      }
    }
  }

  /** `process_cif_directory`'s loop: for each listed `.cif` name, `examine`
      either gives the entry to append to `results[fname]` or `None`, which
      stands both for a file without matches and for an exception that the
      loop logs before going on with the next name. A `defaultdict(list)`
      keeps its keys in first-append order. */
  method CollectEntries<E>(names: seq<string>, examine: string -> Option<E>)
    returns (results: Dict<string, seq<E>>)
    requires Distinct(names)
    ensures results.Valid()
    ensures results.order == Recorded(names, examine)
    ensures forall n :: n in results.entries <==> n in names && IsCifName(n) && examine(n).Some?
    ensures forall n :: n in results.entries ==> results.entries[n] == [examine(n).value]
  {
    results := EmptyDict();
    var i := 0;
    while i < |names|
      invariant 0 <= i <= |names|
      invariant results.Valid()
      invariant results.order == Recorded(names[..i], examine)
      invariant forall n :: n in results.entries ==> results.entries[n] == [examine(n).value]
    {
      RecordedStep(names, i, examine);
      assert names[i] !in names[..i] by {
        assert forall j :: 0 <= j < i ==> names[..i][j] == names[j] != names[i];
      }
      results := CollectEntry(names[..i], names[i], examine, results);
      assert names[..i + 1] == names[..i] + [names[i]];
      i := i + 1;
    }
    assert names[..i] == names;
  }
}
