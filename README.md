# Bulk-modulus evaluation scripts of a MatterGen fork, in Dafny

This project models the six evaluation scripts that surround the generative
model in this MatterGen fork. It also proves properties of that model.

- `mattersim_pred.py` and `mattersim_pred_by_zip.py` prepare inputs for the
  quasi-harmonic approximation (QHA):
  - for each structure, they sample a range of cell volumes;
  - for every volume they write a phonopy thermal-properties file tagged
    `f"{i:02d}"`, plus an `e-v.dat` table;
  - the batch script then runs `phonopy-qha` on each structure;
  - it reads the bulk modulus at the temperature nearest the report
    temperature and writes one summary row per CIF, in sorted path order.
- `plot_unique_by_matching.py` computes, for each of the ten conditioning
  runs (`./results/ml_bulk_modulus/40` … `/400`), the fraction of the 16
  generated structures that are novel (16 minus the `num_rows:` counts, over
  16). It plots this fraction as a series sorted by x.
- `plot_properties_bulk_modulus.py` does the following:
  - pulls every `Bulk Modulus: Column([...])` value out of each run's report;
  - plots the mean per run against the run's conditioning value;
  - adds a scatter of every value;
  - draws an `x = y` line spanning the smallest and largest value shown.
- `match_chem_space_group.py` and `match_chem.py` look for dataset rows that
  match each CIF in a directory:
  - the first requires the same atomic numbers counted with multiplicity and
    the same space group symbol;
  - the second requires only the same set of elements.

The modules follow the scripts:

- `QhaInputs`: the input writing the two QHA scripts share.
- `QhaBatch`: the fitter's command, the result-file parser and the batch loop.
- `QhaSingle`: the single-structure script.
- `UniqueByMatching`: `plot_unique_by_matching.py`.
- `BulkModulusPlot`: `plot_properties_bulk_modulus.py`.
- `CifMatching`: what the two matching scripts share.
- `MatchSpaceGroup`: `match_chem_space_group.py`.
- `MatchChem`: `match_chem.py`.

Supporting modules model the parts of Python the scripts rely on:

- `Text`: `str` methods, `int()` and integer formatting.
- `Sorting`: `sorted` and sequence comparison.
- `Dicts`: an insertion-ordered `dict`.
- `Files`: files that may be missing, and the run directories.
- `Wrappers`: `Option`, and `Outcome` for a value or a raised exception.

Everything outside Python itself is a parameter of the model:

- The file system is a function from path to `Missing`, `Unreadable` or
  `Readable(content)`.
- Each library call that can fail is a function returning `Ok(value)` or
  `Raised(exception)`: the force field with phonopy per volume sample,
  `phonopy-qha`, `float()`, and the CIF readers.
- A directory listing is a sequence of names.

## Model

| member | source | states |
|---|---|---|
| `QhaInputs.Suffixes` | mattersim_pred_by_zip.py:78 | the `f"{i:02d}"` tags of the samples; `QhaInputs.SuffixesReadBack` and `QhaInputs.SuffixesTwoDigits` state what they are |
| `QhaInputs.SuffixesReadBack` | mattersim_pred_by_zip.py:78 | there are `n` suffixes and `int()` reads suffix `i` back as `i` |
| `QhaInputs.SuffixesTwoDigits` | mattersim_pred.py:39 | up to 100 samples, suffix `i` is exactly the tens digit then the units digit of `i` |
| `QhaInputs.ThermalFileNamesDistinct` | mattersim_pred_by_zip.py:109 | two different samples never write the same thermal-properties file |
| `QhaInputs.EvFileIsNotThermal` | mattersim_pred_by_zip.py:113 | `e-v.dat` is never the name of a thermal-properties file |
| `QhaInputs.ThermalFilesStep` | mattersim_pred_by_zip.py:109-110 | writing sample `k`'s file grows "exactly the files of samples `0..k-1`" to "exactly those of `0..k`" |
| `QhaInputs.EvFileNotAmongThermal` | mattersim_pred_by_zip.py:112-116 | writing `e-v.dat` after the loop overwrites no thermal file |
| `QhaInputs.WriteQhaInputs` | mattersim_pred_by_zip.py:76-118 | a negative count raises `ValueError` and writes nothing. The call succeeds iff every sample does; it then returns the `f"{i:02d}"` suffixes, `e-v.dat` holds the header and row `i` = sample `i`'s (V, E), and the other files are exactly the `n` thermal files. Otherwise the first failing sample's exception is raised, and only the thermal files of the samples before it exist |
| `QhaBatch.QhaCommand` | mattersim_pred_by_zip.py:123-125 | the fitter's command line; `QhaBatch.QhaCommandShape`, `QhaBatch.QhaCommandArgs` and `QhaBatch.QhaCommandNamesWrittenFiles` state its shape |
| `QhaBatch.QhaCommandShape` | mattersim_pred_by_zip.py:123-125 | no suffixes raises `IndexError` (from `suffixes[-1]`); otherwise the command is `phonopy-qha`, `e-v.dat`, then one argument per sample, the thermal prefix followed by that sample's suffix |
| `QhaBatch.QhaCommandArgs` | mattersim_pred_by_zip.py:124-125 | for `n > 0` samples the command has `n + 2` words, and word `i + 2` names sample `i`'s thermal file |
| `QhaBatch.QhaCommandNamesWrittenFiles` | mattersim_pred_by_zip.py:120-127 | the files the fitter is given are exactly the files the input writer left, and argument `i + 2` holds sample `i`'s thermal properties |
| `QhaBatch.DataRows` | mattersim_pred_by_zip.py:136-144 | the readings of the data lines in file order, or `ValueError`; stated by `QhaBatch.DataRowsRaisedPrefix`, `QhaBatch.DataRowsRaisesValueError` and `QhaBatch.SkippedLineIgnored` |
| `QhaBatch.IsFirstNearest` | mattersim_pred_by_zip.py:145 | the row the strict `<` keeps: nearest the report temperature and strictly nearer than every earlier row; `QhaBatch.FirstNearestUnique` and `QhaBatch.NearestIndex` state that there is exactly one |
| `QhaBatch.ParsedAs` | mattersim_pred_by_zip.py:129-147 | the parser's answer for each file state, independent of the loop; `QhaBatch.ParsedAsUnique` and `QhaBatch.ParseBulkModulusTemperature` connect it to the loop |
| `QhaBatch.FirstNearestUnique` | mattersim_pred_by_zip.py:145 | at most one row is the first row nearest the report temperature |
| `QhaBatch.ParsedAsUnique` | mattersim_pred_by_zip.py:129-147 | the result-file description determines the parser's answer |
| `QhaBatch.DataRowsRaisedPrefix` | mattersim_pred_by_zip.py:143-144 | once a non-numeric data line has been read, the whole file raises `ValueError`, whatever follows |
| `QhaBatch.DataRowsRaisesValueError` | mattersim_pred_by_zip.py:143-144 | the only exception reading data rows raises is `ValueError` |
| `QhaBatch.SkippedLineIgnored` | mattersim_pred_by_zip.py:137-142 | inserting a blank, `#` or one-field line anywhere leaves the data rows unchanged |
| `QhaBatch.TieGoesToEarlierRow` | mattersim_pred_by_zip.py:145 | example: with the strict `<`, of two rows equally near the report temperature the earlier one is kept |
| `QhaBatch.FirstNearestExtend` | mattersim_pred_by_zip.py:145-146 | reading one more row replaces the candidate iff it is strictly nearer, and the result is the first-nearest of the longer list |
| `QhaBatch.NearestIndex` | mattersim_pred_by_zip.py:145-147 | a non-empty list of rows has a first-nearest row |
| `QhaBatch.ParseResult` | mattersim_pred_by_zip.py:129-147 | the parser's answer exists for every file |
| `QhaBatch.ScanLine` | mattersim_pred_by_zip.py:137-146 | one line: it fails iff it is a data line with a non-numeric field; a data line is appended to the rows read, and the candidate stays the first-nearest of the rows read |
| `QhaBatch.ParseBulkModulusTemperature` | mattersim_pred_by_zip.py:129-147 | returns `None` for a missing file or one without data lines, raises `OSError` for a file that exists but cannot be opened, raises `ValueError` for a non-numeric data line, and otherwise returns the modulus of the first row nearest `t_report` |
| `QhaBatch.ScanLines` | mattersim_pred_by_zip.py:135-147 | the loop over the lines of an open file gives the parser's answer on those lines |
| `QhaBatch.ProcessStructure` | mattersim_pred_by_zip.py:195-214 | an exception while creating the output folder, reading the CIF or building the calculator propagates first. Then `ValueError` for a negative sample count, `IndexError` for none, the first failing sample's exception, `OSError` when `phonopy-qha` cannot be started, `CalledProcessError` when it exits non-zero, and otherwise the parser's answer on the result file it left (missing, unreadable or read) |
| `QhaBatch.Stem` | mattersim_pred_by_zip.py:190 | `PurePath.stem`; `QhaBatch.StemOfCif` states it for CIF names |
| `QhaBatch.StemOfCif` | mattersim_pred_by_zip.py:190 | the stem of `…/s.cif` is `s` |
| `QhaBatch.PathLessStrictTotal` | mattersim_pred_by_zip.py:181 | the path order `sorted` uses is a strict total order |
| `QhaBatch.SortPaths` | mattersim_pred_by_zip.py:181 | the sorted paths are in order and are a permutation of the ones found |
| `QhaBatch.Reported` | mattersim_pred_by_zip.py:215-237 | the modulus column is filled iff the structure was processed without exception and a modulus was parsed, and then holds that modulus |
| `QhaBatch.RunBatch` | mattersim_pred_by_zip.py:181-237 | no CIF exits with status 1 and writes no summary. Otherwise there is one row per CIF in sorted path order, each with its stem, `out_root/stem`, `t_report` and its reported modulus, whatever the structure's outcome |
| `QhaSingle.NextStepHint` | mattersim_pred.py:93 | the printed next-step command; `QhaSingle.HintExpandsToQhaCommand` states what it expands to |
| `QhaSingle.BraceExpand` | mattersim_pred.py:93 | shell brace expansion of numeric ranges gives at least one word |
| `QhaSingle.Pad2Numeral` | mattersim_pred.py:39 | below 100, `f"{k:02d}"` is a two-digit numeral of value `k` |
| `QhaSingle.BraceExpandFromZero` | mattersim_pred.py:93 | `prefix{00..m}` expands to the `m + 1` words `prefix` + `f"{i:02d}"`, counting up from zero |
| `QhaSingle.HintExpandsToQhaCommand` | mattersim_pred.py:86-93 | expanded by the shell, the printed command names exactly the thermal files written, in order; it is the command the batch script runs |
| `QhaSingle.LastSuffixOfSeven` | mattersim_pred.py:35-39 | example: with seven samples the last suffix is `06` |
| `QhaSingle.WriteSevenSamples` | mattersim_pred.py:29-93 | an exception while creating the output folder, reading the CIF or building the calculator propagates before any file is written. Otherwise it succeeds iff all seven samples do. It then writes `e-v.dat` with the seven rows in order and the seven thermal files, and prints the hint ending in `{00..06}`; otherwise the first failing sample's exception propagates |
| `QhaSingle.ParseArgv` | mattersim_pred.py:96-100 | one or two arguments are accepted; the CIF is the first, and the output folder is the second or `qha_out` |
| `QhaSingle.Script` | mattersim_pred.py:95-101 | exit status 0 iff the argument count is right, the setup succeeds and every sample succeeds; a wrong count or a failed setup writes nothing; on success the files and the hint are those of `WriteSevenSamples` |
| `UniqueByMatching.LineContribution` | plot_unique_by_matching.py:12-22 | a line counts only if its stripped text contains `num_rows:` |
| `UniqueByMatching.TotalRows` | plot_unique_by_matching.py:12-22 | the total of the `num_rows:` counts over the lines; `UniqueByMatching.TotalRowsAppend`, `UniqueByMatching.NoCountsGiveNumValues` and `UniqueByMatching.NumRowsLineRoundTrip` state it |
| `UniqueByMatching.NumUnique` | plot_unique_by_matching.py:9-23 | returns 16 minus the total of the numbers read from the file's `num_rows:` lines |
| `UniqueByMatching.TotalRowsAppend` | plot_unique_by_matching.py:12-22 | the total over a file is the sum of the totals over its parts |
| `UniqueByMatching.NoCountsGiveNumValues` | plot_unique_by_matching.py:23 | a report without a `num_rows:` line gives 16 |
| `UniqueByMatching.NumRowsLineRoundTrip` | plot_unique_by_matching.py:16-20 | the line `num_rows: n` is read back as `n` |
| `UniqueByMatching.Fraction` | plot_unique_by_matching.py:38 | `num_unique(file_path)/16`; `UniqueByMatching.NumUnique` states the count it divides |
| `UniqueByMatching.ExtractMetric` | plot_unique_by_matching.py:25-41 | the keys are the directories whose file exists and can be read, in list order, each mapped to its fraction; missing and unreadable files are skipped |
| `UniqueByMatching.ParsedPointsAll` | plot_unique_by_matching.py:54-60 | when every directory name parses as an integer, every item gives a point |
| `UniqueByMatching.PointItem` | plot_unique_by_matching.py:55-60 | an item whose base name parses appends its integer and its value; any other item is skipped |
| `UniqueByMatching.CollectPoints` | plot_unique_by_matching.py:51-60 | `x_vals` and `y_vals` are the two columns of the items' parsed points, in item order |
| `UniqueByMatching.PairLessStrictTotal` | plot_unique_by_matching.py:63 | tuple comparison on (int, float) pairs is a strict total order |
| `UniqueByMatching.Zip` | plot_unique_by_matching.py:63 | `zip` pairs the i-th x with the i-th y |
| `UniqueByMatching.SortPoints` | plot_unique_by_matching.py:63 | no point raises `ValueError` (unpacking an empty `zip`); otherwise the x values come out non-decreasing, and the pairs are a permutation of the input pairs |
| `UniqueByMatching.DirectoryItemsParse` | plot_unique_by_matching.py:45 | every one of the script's directories has a base name `int()` accepts |
| `UniqueByMatching.ParsedPointOrigin` | plot_unique_by_matching.py:54-60 | every collected point comes from one of the items |
| `UniqueByMatching.ParsedPointsOfDirectories` | plot_unique_by_matching.py:48-60 | every collected point is (a run's conditioning value, the fraction read from that run's report) |
| `UniqueByMatching.SortedSeriesOfDirectories` | plot_unique_by_matching.py:63 | sorting keeps each x with its own y |
| `UniqueByMatching.PlotSeries` | plot_unique_by_matching.py:45-63 | raises `ValueError` iff no run's report can be read. Otherwise the series has one point per readable report, sorted by x; each point is a run's conditioning value with that run's fraction, and every readable run's (conditioning value, fraction) is among the points |
| `UniqueByMatching.ParsedPointsComplete` | plot_unique_by_matching.py:54-60 | an item whose base name parses gives its point |
| `UniqueByMatching.ParsedPointsCoverDirectories` | plot_unique_by_matching.py:48-60 | every run with a readable report gives the point (its conditioning value, its fraction) |
| `UniqueByMatching.SortedSeriesKeepsPoints` | plot_unique_by_matching.py:63 | every input point appears, x with its own y, in the sorted series |
| `Files.KeptEmpty` | plot_unique_by_matching.py:31-38 | no directory is kept iff no directory's file is readable |
| `Files.Directories` | plot_unique_by_matching.py:45 | there are ten run directories |
| `Files.BasenameIsLastSegment` | plot_unique_by_matching.py:56 | the base name is a final segment of the path and holds no `/` |
| `Files.PointShown` | plot_unique_by_matching.py:57-58 | a point of the list is shown at the same index of the x and y columns |
| `Files.XsYsSnoc` | plot_unique_by_matching.py:57-58 | appending a point appends its x and its y to the two columns |
| `Files.DirectoryValues` | plot_properties_bulk_modulus.py:35 | the k-th directory's base name parses to `40 * (k + 1)` |
| `Files.DirectoryIndex` | plot_properties_bulk_modulus.py:46 | each script directory is the k-th of the ten for some k, and parses to `40 * (k + 1)` |
| `BulkModulusPlot.SkipSpace` | plot_properties_bulk_modulus.py:11 | `\s*` consumes exactly the run of whitespace |
| `BulkModulusPlot.RunEnd` | plot_properties_bulk_modulus.py:11 | `[^\]]` repeated stops exactly at the first `]` |
| `BulkModulusPlot.MatchAt` | plot_properties_bulk_modulus.py:11 | a match starts with the label, ends with `])`, and captures a non-empty group without `]` |
| `BulkModulusPlot.OccurrenceAt` | plot_properties_bulk_modulus.py:11 | one occurrence of the pattern, defined independently of the scan; `BulkModulusPlot.MatchAtIff` and `BulkModulusPlot.FindAllEmptyIff` connect it to the scan |
| `BulkModulusPlot.MatchIsOccurrence` | plot_properties_bulk_modulus.py:11 | a match at `p` is an occurrence of the pattern there: label, whitespace, `Column([`, a non-empty group without `]`, `])` |
| `BulkModulusPlot.OccurrenceIsMatch` | plot_properties_bulk_modulus.py:11 | an occurrence of the pattern at `p` is the match found there, with the same group and end |
| `BulkModulusPlot.MatchAtIff` | plot_properties_bulk_modulus.py:11 | the scan matches at `p` with group `c` ending at `e` iff the pattern occurs there with that group and end |
| `BulkModulusPlot.OccurrenceBounds` | plot_properties_bulk_modulus.py:11 | an occurrence lies inside the text and is not empty |
| `BulkModulusPlot.FindAll` | plot_properties_bulk_modulus.py:12 | every group found is non-empty |
| `BulkModulusPlot.FindAllSkip` | plot_properties_bulk_modulus.py:12 | positions without the label are passed over |
| `BulkModulusPlot.FindAllAt` | plot_properties_bulk_modulus.py:12 | at an occurrence, `findall` yields its group and resumes after it |
| `BulkModulusPlot.FindAllEmptyIff` | plot_properties_bulk_modulus.py:12 | `findall` finds nothing iff the pattern occurs nowhere from the start position on |
| `BulkModulusPlot.FindAllWithoutLabel` | plot_properties_bulk_modulus.py:12 | text without the label has no match |
| `BulkModulusPlot.FindAllOfReport` | plot_properties_bulk_modulus.py:11-12 | a report whose fillers hold no label, interleaved with lines `Bulk Modulus: Column([g])`, gives exactly its groups, in order |
| `BulkModulusPlot.FindAllReportAt` | plot_properties_bulk_modulus.py:11-12 | the same, for a report found at any position of a text |
| `BulkModulusPlot.FindAllOneOccurrence` | plot_properties_bulk_modulus.py:11-12 | the report line `Bulk Modulus: Column([c])` gives exactly the group `c` |
| `BulkModulusPlot.LineStartsWithLabel` | plot_properties_bulk_modulus.py:11 | a report line starts with the label |
| `BulkModulusPlot.FillerHasNoLabel` | plot_properties_bulk_modulus.py:11 | a label-free filler followed by a report line holds no label start |
| `BulkModulusPlot.LabelHasOneB` | plot_properties_bulk_modulus.py:11 | the label's only `B` is its first character, so a label cannot start inside another |
| `BulkModulusPlot.LineIsOccurrence` | plot_properties_bulk_modulus.py:11 | a report line in a text is an occurrence of the pattern |
| `BulkModulusPlot.ParseTokens` | plot_properties_bulk_modulus.py:16 | succeeds iff every token parses as a float, and then gives one value per token, in order; otherwise raises `ValueError` |
| `BulkModulusPlot.GroupValueCount` | plot_properties_bulk_modulus.py:16 | a group with `k` commas gives `k + 1` values |
| `BulkModulusPlot.AllValues` | plot_properties_bulk_modulus.py:14-17 | the only exception is `ValueError` |
| `BulkModulusPlot.AllValuesCount` | plot_properties_bulk_modulus.py:14-17 | the number of values is the total group size over all matches |
| `BulkModulusPlot.AllValuesRaisedPrefix` | plot_properties_bulk_modulus.py:15-17 | once a group raises, the file raises with the same error |
| `BulkModulusPlot.FileValues` | plot_properties_bulk_modulus.py:6-18 | a report raises only `ValueError` |
| `BulkModulusPlot.ExtractBulkModuliFromFile` | plot_properties_bulk_modulus.py:6-18 | the loop returns the values of every group of every match, in order, or the `ValueError` of the first bad token |
| `BulkModulusPlot.NoOccurrenceNoValues` | plot_properties_bulk_modulus.py:11-18 | a report where the pattern occurs nowhere gives no values |
| `BulkModulusPlot.ReportValues` | plot_properties_bulk_modulus.py:6-18 | a report built of label-free fillers and report lines gives the values of its groups, in order |
| `BulkModulusPlot.ExtractStep` | plot_properties_bulk_modulus.py:25-30 | one directory: a missing file is skipped, an unreadable one raises `OSError`, a bad value raises `ValueError`, and otherwise `results[d]` is set to the file's values |
| `BulkModulusPlot.ExtractBulkModuliFromDirs` | plot_properties_bulk_modulus.py:21-31 | succeeds iff no report raises; then the keys are the directories with a report, in order, each mapped to its values; otherwise the first raising report's exception propagates |
| `BulkModulusPlot.Mean` | plot_properties_bulk_modulus.py:48 | `np.mean` of a non-empty list; `BulkModulusPlot.MeanBounds` states that it lies within the values' bounds |
| `BulkModulusPlot.MeanBounds` | plot_properties_bulk_modulus.py:48 | the mean lies between any lower and upper bound of the values |
| `BulkModulusPlot.SeriesItem` | plot_properties_bulk_modulus.py:45-53 | an item with a parsing name and values appends (x, mean) and all its values; any other item appends nothing |
| `BulkModulusPlot.AppendAll` | plot_properties_bulk_modulus.py:51-53 | the inner loop appends every modulus, in order |
| `BulkModulusPlot.MeanSeries` | plot_properties_bulk_modulus.py:44-55 | the trend is the (x, mean) points of the items with values, and the scatter is all their values, in item order |
| `BulkModulusPlot.MeanPointOrigin` | plot_properties_bulk_modulus.py:44-50 | every trend point comes from one of the items |
| `BulkModulusPlot.MeanPointsNonEmpty` | plot_properties_bulk_modulus.py:47-50 | one item with a parsing name and values gives the trend a point |
| `BulkModulusPlot.ScatterNonEmpty` | plot_properties_bulk_modulus.py:51-53 | a non-empty trend comes with a non-empty scatter |
| `BulkModulusPlot.SeqMin` | plot_properties_bulk_modulus.py:67 | `min` is an element no greater than any other |
| `BulkModulusPlot.SeqMax` | plot_properties_bulk_modulus.py:68 | `max` is an element no smaller than any other |
| `BulkModulusPlot.PlotRange` | plot_properties_bulk_modulus.py:67-68 | raises `ValueError` iff either list is empty; otherwise the line's ends are values that are shown, and they bound every x and every scatter y |
| `BulkModulusPlot.FlatMapHolds` | plot_properties_bulk_modulus.py:44-53 | an element produced for one of the inputs is in the concatenation |
| `BulkModulusPlot.PlotOfSeries` | plot_properties_bulk_modulus.py:61-69 | a plot built from the kept directories' trend and scatter, with ends that bound them and are among the values shown, shows the directories |
| `BulkModulusPlot.SeriesOfItems` | plot_properties_bulk_modulus.py:44-55 | for items that are directories with their values, the trend and the scatter are those of the directories |
| `BulkModulusPlot.SeriesOfKept` | plot_properties_bulk_modulus.py:44-55 | the trend and the scatter are those of the directories with a report, in directory order, and every readable report's directory is among them |
| `BulkModulusPlot.TrendHasFilledDirectories` | plot_properties_bulk_modulus.py:47-50 | every directory whose report lists a modulus gives the trend its (conditioning value, mean) point |
| `BulkModulusPlot.SeriesOfDirectories` | plot_properties_bulk_modulus.py:44-55 | the trend is non-empty iff some report lists a modulus, and each trend point is a run's conditioning value with the mean of its report's values |
| `BulkModulusPlot.PlotBulkModulus` | plot_properties_bulk_modulus.py:35-69 | the figure is drawn iff no report raises and some report lists a modulus. Otherwise the error is `ValueError` when no report raised. Each trend point is (a run's conditioning value, the mean of its report), every run whose report lists a modulus is a trend point, the scatter is every value of the kept reports in directory order, and the `x = y` line's ends are shown values that bound every x and every scatter value |
| `Dicts.Dict.Assign` | plot_properties_bulk_modulus.py:30 | `d[k] = v` maps `k` to `v` and leaves other keys alone; a new key goes last, an existing key keeps its place |
| `Dicts.Dict.Items` | plot_properties_bulk_modulus.py:44 | `items()` lists every key once, in insertion order: item `i` is the `i`-th inserted key with its value |
| `Dicts.EmptyDict` | plot_properties_bulk_modulus.py:23 | `{}` has no keys |
| `Sorting.Insert` | mattersim_pred_by_zip.py:181 | inserting into a sorted list keeps it sorted and adds exactly the element |
| `Sorting.Sort` | mattersim_pred_by_zip.py:181 | `sorted` returns an ordered permutation of its input |
| `Sorting.SortedUnique` | match_chem.py:9 | under a strict total order, two sorted permutations of the same list are equal |
| `Sorting.LexStrictTotal` | mattersim_pred_by_zip.py:181 | comparing sequences element by element is a strict total order when the element order is one |
| `Sorting.StrLessStrictTotal` | mattersim_pred_by_zip.py:181 | Python's string `<` is a strict total order |
| `Text.FindFrom` | plot_unique_by_matching.py:14 | finds the first occurrence at or after a position, or reports that there is none |
| `Text.ContainsIff` | plot_unique_by_matching.py:14 | `sub in s` iff `sub` occurs at some position |
| `Text.RFind` | plot_unique_by_matching.py:56 | the last position of a character, or none |
| `Text.Strip` | mattersim_pred_by_zip.py:137 | `strip()`; `Text.TrimStartDropped` and `Text.TrimEndDropped` state what it drops |
| `Text.TrimStartDropped` | mattersim_pred_by_zip.py:137 | `strip` drops only whitespace at the front |
| `Text.TrimEndDropped` | mattersim_pred_by_zip.py:137 | `strip` drops only whitespace at the back |
| `Text.SplitOn` | plot_unique_by_matching.py:16 | `split(sep)`; `Text.JoinSplitOn`, `Text.SplitOnAbsent`, `Text.SplitOnSeveral` and `Text.SplitOnCharCount` state what it gives |
| `Text.JoinSplitOn` | plot_unique_by_matching.py:16 | joining the parts of `split(sep)` with `sep` restores the string |
| `Text.SplitOnAbsent` | plot_unique_by_matching.py:17 | a line without the separator splits into one part |
| `Text.SplitOnSeveral` | plot_unique_by_matching.py:17 | more than one part means the separator occurs |
| `Text.SplitOnCharCount` | plot_properties_bulk_modulus.py:16 | splitting on `,` gives one more part than there are commas |
| `Text.Fields` | mattersim_pred_by_zip.py:140 | `split()` gives non-empty fields without whitespace |
| `Text.FieldsEmptyIff` | mattersim_pred_by_zip.py:140 | `split()` gives no field iff the string is all whitespace |
| `Text.FieldsOfJoin` | mattersim_pred_by_zip.py:140 | words joined by single spaces are split back into exactly those words, in order |
| `Text.FieldsCons` | mattersim_pred_by_zip.py:140 | a word followed by a space is the first field, and the rest gives the other fields |
| `Text.FieldsSkipSpace` | mattersim_pred_by_zip.py:140 | leading whitespace does not change the fields |
| `Text.Lower` | match_chem_space_group.py:30 | `lower()` keeps the length and lowers each ASCII capital |
| `Text.Dec` | plot_unique_by_matching.py:45 | `str(n)` is a non-empty string of digits |
| `Text.ZeroPad` | mattersim_pred_by_zip.py:78 | padding gives the wider of the width and the digits, ends in the digits, and has only zeros before them |
| `Text.ParseInt` | plot_unique_by_matching.py:20 | `int()` on text; `Text.ParseIntHasDigit`, `Text.ParseIntDigits` and `Text.ParseIntZeroPad` state what it accepts and gives |
| `Text.ParseIntHasDigit` | plot_unique_by_matching.py:20 | `int()` accepts only text that holds a digit |
| `Text.ParseIntDigits` | plot_unique_by_matching.py:56 | `int()` of a run of digits is its decimal value |
| `Text.ParseIntZeroPad` | mattersim_pred_by_zip.py:78 | `int()` reads back every zero-padded numeral |
| `Text.Pad2` | mattersim_pred_by_zip.py:78 | `f"{n:02d}"`; `Text.Pad2Injective` and `Text.Pad2TwoDigits` state what it gives |
| `Text.Pad2Injective` | mattersim_pred_by_zip.py:78 | different numbers get different `f"{i:02d}"` tags |
| `Text.Pad2TwoDigits` | mattersim_pred.py:39 | below 100, `f"{n:02d}"` is the tens digit then the units digit |
| `CifMatching.Filter` | match_chem_space_group.py:53-54 | `dataset.filter` keeps exactly the rows the predicate accepts, and no more rows than there are |
| `CifMatching.FilterAppend` | match_chem.py:13 | filtering keeps dataset order: filtering two parts gives the filtered whole |
| `CifMatching.PathJoin` | match_chem_space_group.py:62 | `os.path.join(dir, name)` ends in `name` |
| `CifMatching.Recorded` | match_chem_space_group.py:60-75 | the names that get an entry are exactly the listed `.cif` names whose examination gives one |
| `CifMatching.CollectEntry` | match_chem_space_group.py:61-75 | one name: an entry for a new `.cif` name is appended under that key as a one-element list |
| `CifMatching.CollectEntries` | match_chem.py:16-32 | the result's keys are exactly the listed `.cif` names that get an entry, in listing order, each mapped to the one-element list of its entry |
| `MatchSpaceGroup.Matches` | match_chem_space_group.py:53-54 | the filter's test: equal `Counter`s of atomic numbers and the same space group; `MatchSpaceGroup.FindMatches` and `MatchSpaceGroup.FindMatchesIgnoresOrder` state its use |
| `MatchSpaceGroup.FindMatches` | match_chem_space_group.py:52-54 | the matches are exactly the dataset rows with the target's atomic numbers, counted with multiplicity, and the same space group |
| `MatchSpaceGroup.FindMatchesIgnoresOrder` | match_chem_space_group.py:53 | the order of the target's atomic numbers does not change the matches |
| `MatchSpaceGroup.CountsMatter` | match_chem_space_group.py:53 | example: `[8, 8, 1]` does not match `[8, 1]` |
| `MatchSpaceGroup.IsArchive` | match_chem_space_group.py:30 | a regular file whose lower-cased name ends in `.zip`; `MatchSpaceGroup.GetCifDirectoryIgnoresCase` states that it ignores case |
| `MatchSpaceGroup.GetCifDirectory` | match_chem_space_group.py:14-35 | a regular file named `*.zip` in any case gives the outcome of unpacking it: the temporary directory, or the exception of a corrupt archive. A directory gives itself. Anything else raises `ValueError`; the archive test is applied first |
| `MatchSpaceGroup.GetCifDirectoryIgnoresCase` | match_chem_space_group.py:30 | a path is an archive iff its lower-case spelling is, and the two are accepted or refused alike |
| `MatchSpaceGroup.UpperCaseArchiveAccepted` | match_chem_space_group.py:30 | example: `x.ZIP` is unpacked too |
| `MatchSpaceGroup.Examine` | match_chem_space_group.py:63-77 | a CIF gets an entry iff both readers succeed and some row matches. The entry holds what was read and exactly the matching rows |
| `MatchSpaceGroup.ProcessCifDirectory` | match_chem_space_group.py:57-78 | the keys are exactly the listed `.cif` names whose file gets an entry, in listing order, each mapped to a one-element list holding that entry |
| `MatchSpaceGroup.MatchCifs` | match_chem_space_group.py:80-92 | exit status 1 iff there is no argument or the path is neither a directory nor a zip file, or the archive cannot be unpacked; otherwise the matches are those of the chosen directory's listing |
| `MatchChem.SortedAtomicNumbers` | match_chem.py:7-9 | the atomic numbers come out non-decreasing, each as often as in the structure |
| `MatchChem.SortedAtomicNumbersUnique` | match_chem.py:9 | any non-decreasing rearrangement of the atomic numbers is the sorted list |
| `MatchChem.SameElementsIff` | match_chem.py:13 | two lists have equal sets iff each element of one occurs in the other |
| `MatchChem.SameElements` | match_chem.py:13 | the filter's test: equal sets of atomic numbers; `MatchChem.SameElementsIff` states it as mutual membership |
| `MatchChem.FindMatches` | match_chem.py:12-13 | the matches are exactly the dataset rows made of the target's elements, whatever their counts |
| `MatchChem.SortingKeepsElements` | match_chem.py:9 | sorting keeps the set of elements |
| `MatchChem.SortingKeepsMatches` | match_chem.py:23-24 | matching the sorted atomic numbers finds the same rows as matching them unsorted |
| `MatchChem.SpaceGroupMatchIsElementMatch` | match_chem.py:13 | a row that `match_chem_space_group.py` matches has the same elements |
| `MatchChem.SpaceGroupMatchesIncluded` | match_chem.py:12-13 | that script's matches are among this script's matches |
| `MatchChem.CountsIgnored` | match_chem.py:13 | example: the inclusion can be strict: `[8, 8, 1]` matches `[8, 1]` here, but not in the other script |
| `MatchChem.Examine` | match_chem.py:22-31 | a CIF gets an entry iff it can be read and some row has its elements. The entry holds the sorted atomic numbers and exactly those rows |
| `MatchChem.ProcessCifDirectory` | match_chem.py:16-32 | the keys are exactly the listed `.cif` names whose file gets an entry, in listing order, each mapped to a one-element list holding that entry |
| `MatchChem.CifPath` | match_chem.py:39 | a listed relative name is read from directly under the fixed directory |
| `MatchChem.MatchGeneratedCifs` | match_chem.py:34-41 | the matches are those of the fixed directory's listing |

## Left out

- Computing a sample is not modelled: the force field, phonopy's displacements, forces, mesh and thermal properties, and the energy and volume. Each sample is an abstract outcome that gives its (volume, energy) row or raises.
- The volume grid is not modelled: `np.linspace`, the cube root and the strain. Only the sample count matters to the model, and the fact that `linspace` raises `ValueError` for a negative count.
- In both QHA scripts, creating the output folder, reading the CIF and building the calculator are one abstract `setup` outcome that succeeds or raises.
- Running `phonopy-qha` is an abstract run: it either cannot be started (`OSError`), or gives an exit status and the state of the result file it leaves (missing, unreadable, or its lines).
- The `cwd` of the subprocess is left out, as is the text of the files written. Only what each file holds is modelled (the header and rows of `e-v.dat`, the sample of a thermal file), not the `f"{V:20.10f}"` formatting.
- `float()` is a parameter `parseFloat` (text to number or none); floats are modelled as exact reals, so `nan` and `inf` are outside the model (under the strict `<`, a `nan` first temperature would never be replaced). `parseFloat` stands for `float(x.strip())` where the scripts strip first.
- `int()` and `lower()` are modelled for ASCII digits and letters only; other Unicode digits and case mappings are not modelled.
- Argument parsing in the batch script is not modelled: `argparse`, its options and defaults. The sample count, `t_report` and the output root are parameters of the model. The help text's "n-points >= 3" is not enforced by the script and not by the model.
- Unpacking the zip archives is left out: `out_root/_unzipped` and `rglob("*.cif")` become the list of CIF paths found. An archive that cannot be unpacked raises there without being caught, which ends the script with status 1 and no summary, as `found == []` does. In `match_chem_space_group.py`, `extract_zip_to_temp` becomes the parameter `unzip`: the directory `tempfile.mkdtemp` picks, or the exception `zipfile` raises.
- Writing the summary CSV and the `f"{B_T:.4f}"` formatting are not modelled: the summary is a list of rows, with the modulus as a number or empty.
- Device and checkpoint selection for the force field (`device`, `checkpoint`, `torch`) are not modelled.
- The plots themselves are not modelled (matplotlib, figure styling, files). The random jitter `np.random.uniform(-2, 2)` of the scatter's x values is left out, so the model keeps only the scatter's y values. The `x = y` line's ends are modelled.
- Opening a file is modelled as one outcome per path (`Missing`, `Unreadable`, or the content); the `os.path.exists` race is not modelled.
- `UniqueByMatching.ExtractMetric` gets an `Unreadable` file for any exception while reading, which the script prints and skips.
- `BulkModulusPlot.ExtractBulkModuliFromDirs` raises `OSError` for any unreadable report; nothing in that script catches it. A report that is not valid UTF-8 raises `UnicodeDecodeError` at `f.read()` instead, which is a `ValueError`; the model folds that case into `Unreadable` and so reports `OSError` for it.
- Reading CIFs (`ase.io.read`, pymatgen's `SpacegroupAnalyzer`) and loading the dataset (`load_dataset`) are parameters: readers that give a value or raise, and a sequence of rows.
- A failure to load the dataset, which happens before `get_cif_directory`, is not modelled. The `dataset.filter` returns a plain sequence of rows.
- Printing is not modelled: the progress messages, the usage messages, and the final report loops of the matching scripts, including `entry['matches']['ml_bulk_modulus']`.
- `os.listdir` is a listing parameter whose names are distinct; its order is taken as given.
- `UniqueByMatching.CollectPoints` and `BulkModulusPlot.MeanSeries` use the scripts' `int(os.path.basename(d))`. The functions that specify them take that parser as a parameter `dirValue`, which is set to it wherever the scripts are modelled.
- The other files of the repository are not part of this model: `plot_unique_across_values.py`, `plot_mattersim_properties.py`, `predict_properties.py`, `ignore_eval.py`, `xyx` and the MatterGen package.
- `BulkModulusPlot.PlotBulkModulus`: when a report raises, its contract says only that the script raises. Which exception it is, and for which directory, is stated by `BulkModulusPlot.ExtractBulkModuliFromDirs`.
- `QhaSingle.BraceExpand`: its own contract states only that an expansion is non-empty. What the printed range expands to is stated by `QhaSingle.BraceExpandFromZero` and `QhaSingle.HintExpandsToQhaCommand`.
- `QhaSingle.LastSuffixOfSeven`, `QhaBatch.TieGoesToEarlierRow`, `MatchSpaceGroup.CountsMatter`, `MatchSpaceGroup.UpperCaseArchiveAccepted` and `MatchChem.CountsIgnored` are examples on fixed inputs; the general statements are the rows they illustrate.
