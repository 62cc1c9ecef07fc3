/** The single-structure script `mattersim_pred.py`: seven volume samples of
    one CIF, their input files for `phonopy-qha`, and the command it prints
    for the user to run next.

    Reading the CIF, the force field and phonopy are outside the model, as in
    `QhaInputs`: `sample(i)` is the whole treatment of sample `i`. */
module QhaSingle {
  import opened Wrappers
  import opened Text
  import opened QhaInputs
  import opened QhaBatch

  /** The script always takes seven samples. */
  const NPoints := 7
  const DefaultOutdir := "qha_out"

  // -----------------------------------------------------------------------
  // The printed next step

  /** A shell word `prefix{lo..hi}`. */
  function BraceWord(prefix: string, lo: string, hi: string): string {
    prefix + "{" + lo + ".." + hi + "}"
  }

  function Max(a: nat, b: nat): nat {
    if a < b then b else a
  }

  /** What the shell expands `prefix{lo..hi}` to when both ends are decimal
      numerals: one word per integer from `lo` to `hi` (counting down when
      `hi` is smaller), each padded with zeros to the width of the wider end
      when either end is written with a leading zero. `None` when an end is
      not a numeral, where the shell keeps the word as it is. */
  function BraceExpand(prefix: string, lo: string, hi: string): (r: Option<seq<string>>)
    ensures r.Some? ==> |r.value| >= 1
  {
    if lo == [] || hi == [] || !AllDigits(lo) || !AllDigits(hi) then None
    else
      var a := DigitsValue(lo);
      var b := DigitsValue(hi);
      var width := if (|lo| > 1 && lo[0] == '0') || (|hi| > 1 && hi[0] == '0') then Max(|lo|, |hi|) else 0;
      if a <= b then Some(seq(b - a + 1, i requires 0 <= i < b - a + 1 => prefix + ZeroPad(Dec(a + i), width)))
      else Some(seq(a - b + 1, i requires 0 <= i < a - b + 1 => prefix + ZeroPad(Dec(a - i), width)))
  }

  /** The command line printed under "Next step:", without its indentation.
      The f-string's doubled braces print single braces. */
  function NextStepHint(last: string): string {
    Join([QhaProgram, EvFileName, BraceWord(ThermalPrefix, "00", last)], " ")
  }

  /** Below 100, `f"{k:02d}"` is a two-digit numeral of value `k`. */
  lemma Pad2Numeral(k: nat)
    requires k < 100
    ensures |Pad2(k)| == 2 && AllDigits(Pad2(k)) && DigitsValue(Pad2(k)) == k
  {
    Pad2TwoDigits(k);
    ZeroPadDigits(Dec(k), 2);
    ZeroPadValue(Dec(k), 2);
    DecValue(k);
  }

  /** `prefix{00..hi}` with a two-digit `hi` counts up from zero in two digits. */
  lemma BraceExpandFromZero(prefix: string, m: nat)
    requires m < 100
    ensures BraceExpand(prefix, "00", Pad2(m)).Some?
    ensures |BraceExpand(prefix, "00", Pad2(m)).value| == m + 1
    ensures forall i :: 0 <= i <= m ==> BraceExpand(prefix, "00", Pad2(m)).value[i] == prefix + Pad2(i)
  {
    var hi := Pad2(m);
    Pad2Numeral(m);
    Pad2TwoDigits(0);
    assert "00" == Pad2(0);
    Pad2Numeral(0);
    assert BraceExpand(prefix, "00", hi)
        == Some(seq(m + 1, i requires 0 <= i < m + 1 => prefix + ZeroPad(Dec(0 + i), Max(2, 2))));
  }

  /** The printed range ends at the last suffix, so once the shell expands
      it the printed command names exactly the thermal files that were
      written, in sample order: it is the command the batch script builds. */
  lemma HintExpandsToQhaCommand(n: nat)
    requires 1 <= n <= 100
    ensures QhaCommand(Suffixes(n)).Ok?
    ensures BraceExpand(ThermalPrefix, "00", Suffixes(n)[n - 1]) == Some(QhaCommand(Suffixes(n)).value[2..])
  {
    assert Suffixes(n)[n - 1] == Pad2(n - 1);
    BraceExpandFromZero(ThermalPrefix, n - 1);
    QhaCommandArgs(n);
    var expanded := BraceExpand(ThermalPrefix, "00", Pad2(n - 1)).value;
    var args := QhaCommand(Suffixes(n)).value[2..];
    assert |expanded| == |args| == n;
    forall i | 0 <= i < n
      ensures expanded[i] == args[i]
    {
      assert args[i] == QhaCommand(Suffixes(n)).value[i + 2] == ThermalFileName(Pad2(i));
    }
    assert expanded == args;
  }

  /** With seven samples the last suffix is "06". */
  lemma LastSuffixOfSeven()
    ensures Suffixes(NPoints)[NPoints - 1] == "06"
  {
    Pad2TwoDigits(6);
    assert DigitChar(0) == '0' && DigitChar(6) == '6';
  }

  // -----------------------------------------------------------------------
  // main and the command line

  /** `main(cif_path, outdir)`: writes the seven samples' thermal files and
      `e-v.dat` into the output folder and returns the next-step command.
      `setup` is the outcome of what precedes the samples: creating the
      output folder, reading the CIF and building the calculator. An
      exception there or in any sample propagates out of `main`. */
  method WriteSevenSamples(setup: Outcome<()>, sample: nat -> Outcome<EvRow>)
    returns (r: Outcome<string>, files: map<string, OutputFile>)
    ensures r.Ok? <==> setup.Ok? && forall i :: 0 <= i < NPoints ==> sample(i).Ok?
    ensures setup.Raised? ==> r == Raised(setup.error) && files == map[]
    ensures r.Ok? ==>
      && r.value == NextStepHint("06")
      && EvFileName in files
      && files[EvFileName] == EvTable(EvHeader, seq(NPoints, i requires 0 <= i < NPoints => sample(i).value))
      && ThermalFilesUpTo(files - {EvFileName}, NPoints)
    ensures setup.Ok? && r.Raised? ==>
      exists k :: 0 <= k < NPoints && sample(k) == Raised(r.error)
                  && (forall i :: 0 <= i < k ==> sample(i).Ok?)
                  && ThermalFilesUpTo(files, k)
  {
    if setup.Raised? {
      return Raised(setup.error), map[];
    }
    var suffixes;
    suffixes, files := WriteQhaInputs(NPoints, sample);
    if suffixes.Raised? {
      return Raised(suffixes.error), files;
    }
    assert files[EvFileName].rows == seq(NPoints, i requires 0 <= i < NPoints => sample(i).value);
    var last := suffixes.value[|suffixes.value| - 1];
    LastSuffixOfSeven();
    r := Ok(NextStepHint(last));
  }

  /** The arguments the script accepts: the CIF path and an optional output
      folder. `None` stands for the usage message and exit status 1. */
  function ParseArgv(argv: seq<string>): (r: Option<(string, string)>)
    ensures r.Some? <==> 2 <= |argv| <= 3
    ensures r.Some? ==> r.value.0 == argv[1]
    ensures r.Some? && |argv| == 3 ==> r.value.1 == argv[2]
    ensures r.Some? && |argv| == 2 ==> r.value.1 == DefaultOutdir
  {
    if |argv| < 2 || |argv| > 3 then None
    else Some((argv[1], if |argv| == 3 then argv[2] else DefaultOutdir))
  }

  /** The script as run from the shell. Without one or two arguments it
      exits with status 1 before writing anything; an exception in `main`
      also ends it with status 1 (Python's status for an uncaught exception). */
  method Script(argv: seq<string>, setup: Outcome<()>, sample: nat -> Outcome<EvRow>)
    returns (exitStatus: int, outdir: Option<string>, files: map<string, OutputFile>, hint: Option<string>)
    ensures exitStatus == 0 || exitStatus == 1
    ensures exitStatus == 0 <==> 2 <= |argv| <= 3 && setup.Ok? && forall i :: 0 <= i < NPoints ==> sample(i).Ok?
    ensures setup.Raised? ==> files == map[]
    ensures !(2 <= |argv| <= 3) ==> outdir.None? && files == map[]
    ensures 2 <= |argv| <= 3 ==> outdir == Some(if |argv| == 3 then argv[2] else DefaultOutdir)
    ensures hint.Some? <==> exitStatus == 0
    ensures exitStatus == 0 ==>
      && hint.value == NextStepHint("06")
      && EvFileName in files
      && files[EvFileName] == EvTable(EvHeader, seq(NPoints, i requires 0 <= i < NPoints => sample(i).value))
      && ThermalFilesUpTo(files - {EvFileName}, NPoints)
  {
    var args := ParseArgv(argv);
    if args.None? {
      return 1, None, map[], None;
    }
    outdir := Some(args.value.1);
    var r;
    r, files := WriteSevenSamples(setup, sample);
    if r.Raised? {
      return 1, outdir, files, None;
    }
    return 0, outdir, files, Some(r.value);
  }
}
