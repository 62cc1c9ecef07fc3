/** The per-structure input bookkeeping shared by `mattersim_pred.py` and
    `mattersim_pred_by_zip.py`: both sample the volume range once per index
    `i`, tag everything from sample `i` with the suffix `f"{i:02d}"`, write one
    thermal-properties file per sample as it goes, and write `e-v.dat` (a
    header, then one row per sample in sample order) at the end.

    The force field, phonopy and the file writes are outside the model: the
    whole treatment of sample `i` is an abstract outcome `sample(i)`, which is
    the sample's (volume, energy) row when every step for it succeeds. */
module QhaInputs {
  import opened Wrappers
  import opened Text

  const EvFileName := "e-v.dat"
  const EvHeader := "# volume(Ang^3)   energy(eV)"
  const ThermalPrefix := "thermal_properties.yaml-"

  /** One sampled volume: the cell volume (Å^3) and the static energy (eV). */
  datatype EvRow = EvRow(volume: real, energy: real)

  /** What a file written into the output folder holds. */
  datatype OutputFile =
    | EvTable(header: string, rows: seq<EvRow>)
    | ThermalProperties(sample: nat)  // phonopy's thermal properties of sample `sample`

  /** `[f"{i:02d}" for i in range(n)]` */
  function Suffixes(n: nat): seq<string> {
    seq(n, i requires 0 <= i < n => Pad2(i))
  }

  function ThermalFileName(suffix: string): string {
    ThermalPrefix + suffix
  }

  /** There are `n` suffixes and `int()` reads suffix `i` back as `i`. */
  lemma SuffixesReadBack(n: nat)
    ensures |Suffixes(n)| == n
    ensures forall i :: 0 <= i < n ==> ParseInt(Suffixes(n)[i]) == Some(i)
  {
    forall i | 0 <= i < n ensures ParseInt(Suffixes(n)[i]) == Some(i) {
      ParseIntZeroPad(i, 2);
    }
  }

  /** Up to 100 samples, suffix `i` is exactly two decimal digits. */
  lemma SuffixesTwoDigits(n: nat)
    requires n <= 100
    ensures forall i :: 0 <= i < n ==> Suffixes(n)[i] == [DigitChar(i / 10), DigitChar(i % 10)]
  {
    forall i | 0 <= i < n ensures Suffixes(n)[i] == [DigitChar(i / 10), DigitChar(i % 10)] {
      Pad2TwoDigits(i);
    }
  }

  /** Different samples never share a thermal-properties file. */
  lemma ThermalFileNamesDistinct(i: nat, j: nat)
    requires i != j
    ensures ThermalFileName(Pad2(i)) != ThermalFileName(Pad2(j))
  {
    if ThermalFileName(Pad2(i)) == ThermalFileName(Pad2(j)) {
      assert Pad2(i) == ThermalFileName(Pad2(i))[|ThermalPrefix|..];
      Pad2Injective(i, j);
    }
  }

  lemma EvFileIsNotThermal(suffix: string)
    ensures ThermalFileName(suffix) != EvFileName
  {
    assert ThermalFileName(suffix)[0] == 't';
  }

  /** `files` holds exactly the thermal-properties files of samples
      `0 .. k - 1`, each under its own suffix. */
  ghost predicate ThermalFilesUpTo(files: map<string, OutputFile>, k: nat) {
    && (forall j :: 0 <= j < k ==>
          ThermalFileName(Pad2(j)) in files && files[ThermalFileName(Pad2(j))] == ThermalProperties(j))
    && (forall f :: f in files ==> exists j :: 0 <= j < k && f == ThermalFileName(Pad2(j)))
  }

  /** Writing the thermal file of the next sample extends the set by one. */
  lemma ThermalFilesStep(files: map<string, OutputFile>, k: nat)
    requires ThermalFilesUpTo(files, k)
    ensures ThermalFilesUpTo(files[ThermalFileName(Pad2(k)) := ThermalProperties(k)], k + 1)
  {
    var name := ThermalFileName(Pad2(k));
    var files' := files[name := ThermalProperties(k)];
    forall j | 0 <= j < k + 1
      ensures ThermalFileName(Pad2(j)) in files' && files'[ThermalFileName(Pad2(j))] == ThermalProperties(j)
    {
      if j < k {
        ThermalFileNamesDistinct(j, k);
      }
    }
    forall f | f in files'
      ensures exists j :: 0 <= j < k + 1 && f == ThermalFileName(Pad2(j))
    {
      if f == name {
        assert 0 <= k < k + 1 && f == ThermalFileName(Pad2(k));
      } else {
        var j :| 0 <= j < k && f == ThermalFileName(Pad2(j));
        assert 0 <= j < k + 1;
      }
    }
  }

  /** `e-v.dat` is never one of the thermal files. */
  lemma EvFileNotAmongThermal(files: map<string, OutputFile>, k: nat)
    requires ThermalFilesUpTo(files, k)
    ensures EvFileName !in files
  {
    forall j | 0 <= j < k
      ensures ThermalFileName(Pad2(j)) != EvFileName
    {
      EvFileIsNotThermal(Pad2(j));
    }
  }

  /** The loop over samples of `make_qha_inputs_for_cif` (and of the
      single-structure script's `main`), with the files it leaves behind.
      A negative count makes `np.linspace` raise before anything is written;
      a failing sample stops the loop, leaving the thermal files of the
      samples before it and no `e-v.dat`. */
  method WriteQhaInputs(n: int, sample: nat -> Outcome<EvRow>)
    returns (r: Outcome<seq<string>>, files: map<string, OutputFile>)
    ensures n < 0 ==> r == Raised(ValueError) && files == map[]
    ensures r.Ok? <==> n >= 0 && forall i :: 0 <= i < n ==> sample(i).Ok?
    ensures r.Ok? ==> r.value == Suffixes(n)
    ensures r.Ok? ==>
      && EvFileName in files
      && files[EvFileName].EvTable?
      && files[EvFileName].header == EvHeader
      && |files[EvFileName].rows| == n
      && (forall i :: 0 <= i < n ==> files[EvFileName].rows[i] == sample(i).value)
      && ThermalFilesUpTo(files - {EvFileName}, n)
    ensures r.Raised? && n >= 0 ==>
      exists k :: 0 <= k < n && sample(k) == Raised(r.error)
                  && (forall i :: 0 <= i < k ==> sample(i).Ok?)
                  && ThermalFilesUpTo(files, k)
  {
    files := map[];
    if n < 0 {
      return Raised(ValueError), files;
    }
    var suffixes := Suffixes(n);
    var evRows: seq<EvRow> := [];
    var i := 0;
    while i < n
      invariant 0 <= i <= n
      invariant forall j :: 0 <= j < i ==> sample(j).Ok?
      invariant |evRows| == i
      invariant forall j :: 0 <= j < i ==> evRows[j] == sample(j).value
      invariant ThermalFilesUpTo(files, i)
    {
      var outcome := sample(i);
      if outcome.Raised? {
        return Raised(outcome.error), files;
      }
      evRows := evRows + [outcome.value];
      assert suffixes[i] == Pad2(i);
      ThermalFilesStep(files, i);
      files := files[ThermalFileName(suffixes[i]) := ThermalProperties(i)];
      i := i + 1;
    }
    EvFileNotAmongThermal(files, n);
    var withTable := files[EvFileName := EvTable(EvHeader, evRows)];
    assert withTable - {EvFileName} == files;
    files := withTable;
    r := Ok(suffixes);
  }
}
