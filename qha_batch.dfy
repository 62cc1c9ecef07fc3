/** The batch QHA driver of `mattersim_pred_by_zip.py`: the `phonopy-qha`
    command line, the reading of the fitter's `bulk_modulus-temperature.dat`
    at the report temperature, the per-structure pipeline with its error
    handling, and the summary loop over every CIF in the archive.

    The fitter itself is an external program: it is a parameter that maps a
    command line to what running it did: it could not be started, or it
    exited with a status and left the result file in some state. */
module QhaBatch {
  import opened Wrappers
  import opened Text
  import opened Sorting
  import opened QhaInputs
  import opened Files

  const QhaProgram := "phonopy-qha"

  // -----------------------------------------------------------------------
  // run_phonopy_qha

  /** `["phonopy-qha", "e-v.dat"] + ["thermal_properties.yaml-" + s for s in suffixes]`.
      The function first evaluates `suffixes[-1]`, which raises on an empty list. */
  function QhaCommand(suffixes: seq<string>): Outcome<seq<string>> {
    if suffixes == [] then Raised(IndexError)
    else Ok([QhaProgram, EvFileName]
            + seq(|suffixes|, i requires 0 <= i < |suffixes| => ThermalFileName(suffixes[i])))
  }

  /** For `n` samples the command is the program, `e-v.dat`, then one
      thermal file per sample in sample order, and the tag of argument
      `i + 2` reads back as `i`. With no samples the command cannot be built. */
  lemma QhaCommandShape(n: nat)
    ensures n == 0 ==> QhaCommand(Suffixes(n)) == Raised(IndexError)
    ensures n > 0 ==>
      && QhaCommand(Suffixes(n)).Ok?
      && |QhaCommand(Suffixes(n)).value| == n + 2
      && QhaCommand(Suffixes(n)).value[0] == QhaProgram
      && QhaCommand(Suffixes(n)).value[1] == EvFileName
      && forall i :: 0 <= i < n ==>
           && StartsWith(QhaCommand(Suffixes(n)).value[i + 2], ThermalPrefix)
           && ParseInt(QhaCommand(Suffixes(n)).value[i + 2][|ThermalPrefix|..]) == Some(i)
  {
    SuffixesReadBack(n);
    if n > 0 {
      var cmd := QhaCommand(Suffixes(n)).value;
      forall i | 0 <= i < n
        ensures StartsWith(cmd[i + 2], ThermalPrefix)
        ensures cmd[i + 2][|ThermalPrefix|..] == Suffixes(n)[i]
      {
        assert cmd[i + 2] == ThermalPrefix + Suffixes(n)[i];
      }
    }
  }

  /** The command hands the fitter exactly the files that writing the inputs
      left in the folder: `e-v.dat` and the thermal file of every sample,
      argument `i + 2` being the one of sample `i`. */
  lemma QhaCommandNamesWrittenFiles(n: nat, files: map<string, OutputFile>)
    requires n > 0
    requires EvFileName in files && ThermalFilesUpTo(files - {EvFileName}, n)
    ensures QhaCommand(Suffixes(n)).Ok?
    ensures forall i :: 0 <= i < n ==> files[QhaCommand(Suffixes(n)).value[i + 2]] == ThermalProperties(i)
    ensures forall f :: f in files <==> f in QhaCommand(Suffixes(n)).value[1..]
  {
    QhaCommandArgs(n);
    var args := QhaCommand(Suffixes(n)).value[1..];
    forall f | f in files
      ensures f in args
    {
      WrittenFileIsArg(n, files, f);
    }
    forall i | 0 <= i < n
      ensures files[args[i + 1]] == ThermalProperties(i)
    {
      ThermalArgWritten(n, files, i);
    }
  }

  lemma WrittenFileIsArg(n: nat, files: map<string, OutputFile>, f: string)
    requires n > 0
    requires ThermalFilesUpTo(files - {EvFileName}, n)
    requires f in files
    ensures QhaCommand(Suffixes(n)).Ok? && f in QhaCommand(Suffixes(n)).value[1..]
  {
    QhaCommandArgs(n);
    var cmd := QhaCommand(Suffixes(n)).value;
    if f == EvFileName {
      assert cmd[1..][0] == f;
    } else {
      var rest := files - {EvFileName};
      assert f in rest;
      var j :| 0 <= j < n && f == ThermalFileName(Pad2(j));
      assert cmd[1..][j + 1] == f;
    }
  }

  lemma ThermalArgWritten(n: nat, files: map<string, OutputFile>, i: nat)
    requires i < n
    requires ThermalFilesUpTo(files - {EvFileName}, n)
    ensures QhaCommand(Suffixes(n)).Ok?
    ensures QhaCommand(Suffixes(n)).value[i + 2] in files
    ensures files[QhaCommand(Suffixes(n)).value[i + 2]] == ThermalProperties(i)
  {
    QhaCommandArgs(n);
    var name := ThermalFileName(Pad2(i));
    var rest := files - {EvFileName};
    assert name in rest && rest[name] == ThermalProperties(i);
  }

  lemma QhaCommandArgs(n: nat)
    requires n > 0
    ensures QhaCommand(Suffixes(n)).Ok?
    ensures |QhaCommand(Suffixes(n)).value| == n + 2
    ensures QhaCommand(Suffixes(n)).value[1] == EvFileName
    ensures forall i :: 0 <= i < n ==> QhaCommand(Suffixes(n)).value[i + 2] == ThermalFileName(Pad2(i))
  {
  }

  // -----------------------------------------------------------------------
  // parse_bulk_modulus_temperature

  /** One row of the fitter's table: a temperature (K) and the bulk modulus (GPa) there. */
  datatype Reading = Reading(temperature: real, modulus: real)

  /** A line the parser reads: not blank once stripped, not a `#` comment,
      and with at least two whitespace-separated fields. */
  predicate IsDataLine(line: string) {
    var s := Strip(line);
    s != [] && s[0] != '#' && |Fields(s)| >= 2
  }

  /** `float()` of the first two fields; `None` when either raises. */
  function ParseDataLine(line: string, parseFloat: string -> Option<real>): Option<Reading>
    requires IsDataLine(line)
  {
    var parts := Fields(Strip(line));
    match (parseFloat(parts[0]), parseFloat(parts[1]))
    case (Some(t), Some(b)) => Some(Reading(t, b))
    case _ => None
  }

  /** The readings of the data lines, in file order, or the `ValueError`
      raised at the first data line whose fields are not numbers. */
  function DataRows(lines: seq<string>, parseFloat: string -> Option<real>): Outcome<seq<Reading>>
    decreases |lines|
  {
    if lines == [] then Ok([])
    else
      var before := DataRows(lines[..|lines| - 1], parseFloat);
      var last := lines[|lines| - 1];
      if before.Raised? || !IsDataLine(last) then before
      else match ParseDataLine(last, parseFloat)
        case None => Raised(ValueError)
        case Some(row) => Ok(before.value + [row])
  }

  /** Reading one more line: the step `DataRows` takes at the end of the file. */
  lemma DataRowsSnoc(lines: seq<string>, line: string, parseFloat: string -> Option<real>)
    ensures DataRows(lines + [line], parseFloat) ==
      var before := DataRows(lines, parseFloat);
      if before.Raised? || !IsDataLine(line) then before
      else match ParseDataLine(line, parseFloat)
        case None => Raised(ValueError)
        case Some(row) => Ok(before.value + [row])
  {
    assert (lines + [line])[..|lines|] == lines;
  }

  /** `abs(T - t_report)` */
  function Distance(row: Reading, tReport: real): real {
    if row.temperature < tReport then tReport - row.temperature else row.temperature - tReport
  }

  /** Row `k` is nearest the report temperature, and strictly nearer than
      every row before it: the row a scan that only replaces its candidate
      on a strictly smaller distance ends with. */
  predicate IsFirstNearest(rows: seq<Reading>, tReport: real, k: nat) {
    && k < |rows|
    && (forall j :: 0 <= j < |rows| ==> Distance(rows[k], tReport) <= Distance(rows[j], tReport))
    && (forall j :: 0 <= j < k ==> Distance(rows[k], tReport) < Distance(rows[j], tReport))
  }

  /** At most one row is the first nearest: ties go to the earliest row. */
  lemma FirstNearestUnique(rows: seq<Reading>, tReport: real, k1: nat, k2: nat)
    requires IsFirstNearest(rows, tReport, k1) && IsFirstNearest(rows, tReport, k2)
    ensures k1 == k2
  {
    assert Distance(rows[k1], tReport) <= Distance(rows[k2], tReport);
    assert Distance(rows[k2], tReport) <= Distance(rows[k1], tReport);
  }

  /** What `parse_bulk_modulus_temperature` returns for the result file:
      `None` for a missing file or a file without data lines, `OSError` when
      the file exists but cannot be opened or read, `ValueError` when a data
      line is not numeric, and otherwise the modulus of the first row
      nearest the report temperature. */
  ghost predicate ParsedAs(file: FileState<seq<string>>, tReport: real, parseFloat: string -> Option<real>,
                           r: Outcome<Option<real>>)
  {
    match file
    case Missing => r == Ok(None)
    case Unreadable => r == Raised(OSError)
    case Readable(lines) =>
      match DataRows(lines, parseFloat)
      case Raised(_) => r == Raised(ValueError)
      case Ok(rows) =>
        if rows == [] then r == Ok(None)
        else exists k: nat :: IsFirstNearest(rows, tReport, k) && r == Ok(Some(rows[k].modulus))
  }

  /** The parser's answer is determined by the file. */
  lemma ParsedAsUnique(file: FileState<seq<string>>, tReport: real, parseFloat: string -> Option<real>,
                       r1: Outcome<Option<real>>, r2: Outcome<Option<real>>)
    requires ParsedAs(file, tReport, parseFloat, r1) && ParsedAs(file, tReport, parseFloat, r2)
    ensures r1 == r2
  {
    if file.Readable? && DataRows(file.content, parseFloat).Ok? && DataRows(file.content, parseFloat).value != [] {
      var rows := DataRows(file.content, parseFloat).value;
      var k1: nat :| IsFirstNearest(rows, tReport, k1) && r1 == Ok(Some(rows[k1].modulus));
      var k2: nat :| IsFirstNearest(rows, tReport, k2) && r2 == Ok(Some(rows[k2].modulus));
      FirstNearestUnique(rows, tReport, k1, k2);
    }
  }

  /** Once a prefix of the file has raised, the whole file raises. */
  lemma {:induction false} DataRowsRaisedPrefix(lines: seq<string>, i: nat, parseFloat: string -> Option<real>)
    requires i <= |lines| && DataRows(lines[..i], parseFloat).Raised?
    ensures DataRows(lines, parseFloat) == Raised(ValueError)
    decreases |lines| - i
  {
    if i == |lines| {
      assert lines[..i] == lines;
      DataRowsRaisesValueError(lines, parseFloat);
    } else {
      assert lines[..i + 1][..i] == lines[..i];
      DataRowsRaisedPrefix(lines, i + 1, parseFloat);
    }
  }

  lemma {:induction false} DataRowsRaisesValueError(lines: seq<string>, parseFloat: string -> Option<real>)
    ensures DataRows(lines, parseFloat).Raised? ==> DataRows(lines, parseFloat) == Raised(ValueError)
    decreases |lines|
  {
    if lines != [] {
      DataRowsRaisesValueError(lines[..|lines| - 1], parseFloat);
    }
  }

  /** Blank lines, comments and short lines never change what is read. */
  lemma {:induction false} SkippedLineIgnored(before: seq<string>, line: string, after: seq<string>,
                                              parseFloat: string -> Option<real>)
    requires !IsDataLine(line)
    ensures DataRows(before + [line] + after, parseFloat) == DataRows(before + after, parseFloat)
    decreases |after|
  {
    if after == [] {
      assert before + [line] + after == before + [line];
      assert before + after == before;
      DataRowsSnoc(before, line, parseFloat);
    } else {
      var init := after[..|after| - 1];
      var last := after[|after| - 1];
      assert after == init + [last];
      var x := before + [line] + init;
      var y := before + init;
      SkippedLineIgnored(before, line, init, parseFloat);
      assert DataRows(x, parseFloat) == DataRows(y, parseFloat);
      assert before + [line] + after == x + [last];
      assert before + after == y + [last];
      DataRowsSnoc(x, last, parseFloat);
      DataRowsSnoc(y, last, parseFloat);
    }
  }

  /** An example: rows (290, 10.0), (300, 12.0),
      (310, 9.0) and report temperature 305 give 12.0, because 300 and 310
      are equally near and 300 comes first. */
  lemma TieGoesToEarlierRow()
    ensures IsFirstNearest([Reading(290.0, 10.0), Reading(300.0, 12.0), Reading(310.0, 9.0)], 305.0, 1)
    ensures !IsFirstNearest([Reading(290.0, 10.0), Reading(300.0, 12.0), Reading(310.0, 9.0)], 305.0, 2)
  {
  }

  /** Appending a row keeps the first nearest row unless the new one is
      strictly nearer, in which case the new one becomes it. */
  lemma FirstNearestExtend(rows: seq<Reading>, tReport: real, best: nat, row: Reading)
    requires IsFirstNearest(rows, tReport, best)
    ensures Distance(row, tReport) < Distance(rows[best], tReport) ==> IsFirstNearest(rows + [row], tReport, |rows|)
    ensures Distance(row, tReport) >= Distance(rows[best], tReport) ==> IsFirstNearest(rows + [row], tReport, best)
  {
    var ext := rows + [row];
    assert forall j :: 0 <= j < |rows| ==> ext[j] == rows[j];
    assert ext[|rows|] == row;
  }

  /** One line of the scan, when no earlier line raised. */
  lemma DataRowsStep(prefix: seq<string>, line: string, parseFloat: string -> Option<real>, seen: seq<Reading>)
    requires DataRows(prefix, parseFloat) == Ok(seen)
    ensures !IsDataLine(line) ==> DataRows(prefix + [line], parseFloat) == Ok(seen)
    ensures IsDataLine(line) && ParseDataLine(line, parseFloat).None? ==>
      DataRows(prefix + [line], parseFloat) == Raised(ValueError)
    ensures IsDataLine(line) && ParseDataLine(line, parseFloat).Some? ==>
      DataRows(prefix + [line], parseFloat) == Ok(seen + [ParseDataLine(line, parseFloat).value])
  {
    DataRowsSnoc(prefix, line, parseFloat);
  }

  /** The index a left-to-right scan settles on: the first row nearest the
      report temperature. */
  function NearestIndex(rows: seq<Reading>, tReport: real): (k: nat)
    requires rows != []
    ensures IsFirstNearest(rows, tReport, k)
    decreases |rows|
  {
    if |rows| == 1 then 0
    else
      var init := rows[..|rows| - 1];
      var last := rows[|rows| - 1];
      var k := NearestIndex(init, tReport);
      assert rows == init + [last];
      FirstNearestExtend(init, tReport, k, last);
      if Distance(last, tReport) < Distance(rows[k], tReport) then |rows| - 1 else k
  }

  /** What the parser returns, as a function of the file. */
  ghost function ParseResult(file: FileState<seq<string>>, tReport: real, parseFloat: string -> Option<real>)
    : (r: Outcome<Option<real>>)
    ensures ParsedAs(file, tReport, parseFloat, r)
  {
    match file
    case Missing => Ok(None)
    case Unreadable => Raised(OSError)
    case Readable(lines) =>
      match DataRows(lines, parseFloat)
      case Raised(_) => Raised(ValueError)
      case Ok(rows) =>
        if rows == [] then Ok(None)
        else Ok(Some(rows[NearestIndex(rows, tReport)].modulus))
  }

  /** One line of the scan: a data line whose fields are not numbers stops
      it, any other data line is a new candidate row, nearer or not. */
  method ScanLine(line: string, tReport: real, parseFloat: string -> Option<real>,
                  cand: Option<Reading>, ghost seen: seq<Reading>)
    returns (failed: bool, cand': Option<Reading>, ghost seen': seq<Reading>)
    requires cand.None? <==> seen == []
    requires cand.Some? ==> cand.value == seen[NearestIndex(seen, tReport)]
    ensures failed <==> IsDataLine(line) && ParseDataLine(line, parseFloat).None?
    ensures !failed && IsDataLine(line) ==> seen' == seen + [ParseDataLine(line, parseFloat).value]
    ensures !IsDataLine(line) ==> seen' == seen
    ensures cand'.None? <==> seen' == []
    ensures cand'.Some? ==> cand'.value == seen'[NearestIndex(seen', tReport)]
  {
    failed, cand', seen' := false, cand, seen;
    if IsDataLine(line) {
      var parsed := ParseDataLine(line, parseFloat);
      if parsed.None? {
        return true, cand, seen;
      }
      var row := parsed.value;
      if cand.None? || Distance(row, tReport) < Distance(cand.value, tReport) {
        cand' := Some(row);
      }
      assert (seen + [row])[..|seen|] == seen;
      seen' := seen + [row];
    }
  }

  /** The scan over the lines of `bulk_modulus-temperature.dat`, keeping the
      candidate row nearest the report temperature. */
  method ParseBulkModulusTemperature(file: FileState<seq<string>>, tReport: real,
                                     parseFloat: string -> Option<real>)
    returns (r: Outcome<Option<real>>)
    ensures r == ParseResult(file, tReport, parseFloat)
  {
    match file
    case Missing => r := Ok(None);
    case Unreadable => r := Raised(OSError);
    case Readable(lines) => r := ScanLines(lines, tReport, parseFloat);
  }

  /** The loop over the lines of a result file that could be opened. */
  method ScanLines(lines: seq<string>, tReport: real, parseFloat: string -> Option<real>)
    returns (r: Outcome<Option<real>>)
    ensures r == ParseResult(Readable(lines), tReport, parseFloat)
  {
    var cand: Option<Reading> := None;
    ghost var seen: seq<Reading> := [];
    var i := 0;
    while i < |lines|
      invariant 0 <= i <= |lines|
      invariant DataRows(lines[..i], parseFloat) == Ok(seen)
      invariant cand.None? <==> seen == []
      invariant cand.Some? ==> cand.value == seen[NearestIndex(seen, tReport)]
    {
      var line := lines[i];
      assert lines[..i + 1] == lines[..i] + [line];
      DataRowsStep(lines[..i], line, parseFloat, seen);
      var failed;
      failed, cand, seen := ScanLine(line, tReport, parseFloat, cand, seen);
      if failed {
        DataRowsRaisedPrefix(lines, i + 1, parseFloat);
        return Raised(ValueError);
      }
      i := i + 1;
    }
    assert lines[..i] == lines;
    if cand.Some? {
      r := Ok(Some(cand.value.modulus));
    } else {
      r := Ok(None);
    }
  }

  // -----------------------------------------------------------------------
  // One structure: the body of the `try` in `main`

  /** What running the fitter on one command line did: `subprocess.run`
      could not start it (no `phonopy-qha` on the path), or it exited with
      a status and left `bulk_modulus-temperature.dat` in some state. */
  datatype QhaRun = NotStarted | Finished(exitStatus: int, resultFile: FileState<seq<string>>)

  /** Prepares the structure, writes the inputs, runs the fitter (whose
      non-zero exit raises `CalledProcessError`) and reads the modulus at
      the report temperature. `setup` is the outcome of what precedes the
      volume grid: creating the output folder, reading the CIF and building
      the calculator. */
  method ProcessStructure(setup: Outcome<()>, n: int, sample: nat -> Outcome<EvRow>,
                          fitter: seq<string> -> QhaRun, tReport: real, parseFloat: string -> Option<real>)
    returns (b: Outcome<Option<real>>)
    ensures setup.Raised? ==> b == Raised(setup.error)
    ensures setup.Ok? && n < 0 ==> b == Raised(ValueError)
    ensures setup.Ok? && n == 0 ==> b == Raised(IndexError)
    ensures setup.Ok? && n > 0 && (exists i :: 0 <= i < n && sample(i).Raised?) ==>
      b.Raised? && exists k :: 0 <= k < n && sample(k) == Raised(b.error) && forall i :: 0 <= i < k ==> sample(i).Ok?
    ensures setup.Ok? && n > 0 && (forall i :: 0 <= i < n ==> sample(i).Ok?) ==>
      var run := fitter(QhaCommand(Suffixes(n)).value);
      && (run.NotStarted? ==> b == Raised(OSError))
      && (run.Finished? && run.exitStatus != 0 ==> b == Raised(CalledProcessError))
      && (run.Finished? && run.exitStatus == 0 ==> ParsedAs(run.resultFile, tReport, parseFloat, b))
  {
    if setup.Raised? {
      return Raised(setup.error);
    }
    var suffixes, files := WriteQhaInputs(n, sample);
    if suffixes.Raised? {
      return Raised(suffixes.error);
    }
    var cmd := QhaCommand(suffixes.value);
    if cmd.Raised? {
      return Raised(cmd.error);
    }
    var run := fitter(cmd.value);
    if run.NotStarted? {
      return Raised(OSError);
    }
    if run.exitStatus != 0 {
      return Raised(CalledProcessError);
    }
    b := ParseBulkModulusTemperature(run.resultFile, tReport, parseFloat);
  }

  // -----------------------------------------------------------------------
  // The summary loop of `main`

  /** A path as the list of its components. */
  type Path = seq<string>

  /** `PurePath.name` */
  function Name(p: Path): string {
    if p == [] then "" else p[|p| - 1]
  }

  /** `PurePath.stem`: the name without its last suffix, where a suffix
      starts at a dot that is neither the first nor the last character. */
  function Stem(p: Path): string {
    var name := Name(p);
    match RFind(name, '.')
    case Some(i) => if 0 < i < |name| - 1 then name[..i] else name
    case None => name
  }

  /** A CIF named `s + ".cif"` has stem `s`. */
  lemma StemOfCif(dir: Path, s: string)
    requires s != []
    ensures Stem(dir + [s + ".cif"]) == s
  {
    var name := s + ".cif";
    assert Name(dir + [name]) == name;
    assert name[|s|] == '.';
    assert forall j :: |s| < j < |name| ==> name[j] != '.';
    var r := RFind(name, '.');
    assert r == Some(|s|);
    assert name[..|s|] == s;
  }

  /** `PurePath` ordering: component lists compared lexicographically. */
  function PathLess(a: Path, b: Path): bool {
    LexLess(a, b, StrLess)
  }

  lemma PathLessStrictTotal()
    ensures StrictTotalOrder(PathLess)
  {
    StrLessStrictTotal();
    LexStrictTotal(StrLess);
    assert forall a, b :: PathLess(a, b) == ((x: Path, y: Path) => LexLess(x, y, StrLess))(a, b);
  }

  /** `sorted(paths)` */
  function SortPaths(paths: seq<Path>): (r: seq<Path>)
    ensures Sorted(r, PathLess) && multiset(r) == multiset(paths)
    ensures |r| == |paths|
  {
    PathLessStrictTotal();
    var r := Sort(paths, PathLess);
    assert |r| == |multiset(r)| == |multiset(paths)| == |paths|;
    r
  }

  /** One line of `summary_bulk_modulus.csv`; `None` in the modulus column is
      the empty field. */
  datatype SummaryRow = SummaryRow(material: string, outdir: Path, tReportK: real, bulkModulusGPa: Option<real>)

  /** The modulus column for one structure's outcome: the parsed value, or
      empty when parsing found nothing or anything raised. */
  function Reported(outcome: Outcome<Option<real>>): (field: Option<real>)
    ensures field.Some? <==> outcome.Ok? && outcome.value.Some?
    ensures field.Some? ==> field.value == outcome.value.value
  {
    match outcome
    case Ok(b) => b
    case Raised(_) => None
  }

  /** `main` after unzipping: `found` are the `*.cif` paths under the
      extraction folder, in any order, and `outcome(cif)` is what
      `ProcessStructure` gives for that structure. Without a CIF the program
      exits with status 1 and writes no summary; otherwise it writes one row
      per CIF, in sorted path order, and exits with status 0. */
  method RunBatch(found: seq<Path>, outRoot: Path, tReport: real, outcome: Path -> Outcome<Option<real>>)
    returns (exitStatus: int, summary: Option<seq<SummaryRow>>)
    ensures found == [] <==> exitStatus == 1
    ensures exitStatus == 1 <==> summary.None?
    ensures exitStatus == 0 <==> summary.Some?
    ensures summary.Some? ==>
      var cifs := SortPaths(found);
      && |summary.value| == |found|
      && forall i :: 0 <= i < |found| ==>
           && summary.value[i].material == Stem(cifs[i])
           && summary.value[i].outdir == outRoot + [Stem(cifs[i])]
           && summary.value[i].tReportK == tReport
           && summary.value[i].bulkModulusGPa == Reported(outcome(cifs[i]))
  {
    var cifs := SortPaths(found);
    if cifs == [] {
      return 1, None;
    }
    var rows: seq<SummaryRow> := [];
    var i := 0;
    while i < |cifs|
      invariant 0 <= i <= |cifs|
      invariant |rows| == i
      invariant forall j :: 0 <= j < i ==>
        rows[j] == SummaryRow(Stem(cifs[j]), outRoot + [Stem(cifs[j])], tReport, Reported(outcome(cifs[j])))
    {
      var cif := cifs[i];
      var stem := Stem(cif);
      var outdir := outRoot + [stem];
      var result := outcome(cif);
      var field := if result.Ok? then result.value else None;
      rows := rows + [SummaryRow(stem, outdir, tReport, field)];
      i := i + 1;
    }
    return 0, Some(rows);
  }
}
