/** `plot_unique_by_matching.py`: the fraction of the 16 conditioned
    structures per run that found no match, read from the `num_rows:` counts
    that a match report prints, and the (x, y) series that is plotted.

    The file system is a parameter: `fs(d)` is what reading the report file
    in directory `d` gives, as the lines Python's file iterator yields. */
module UniqueByMatching {
  import opened Wrappers
  import opened Text
  import opened Sorting
  import opened Dicts
  import opened Files

  /** The number of structures a report is about. */
  const NumValues := 16
  const NumRowsKey := "num_rows"
  const NumRowsColon := "num_rows:"

  // -----------------------------------------------------------------------
  // num_unique

  /** The count one line of a report adds to the total: the text after the
      first `num_rows:`, cut at the first `}`, stripped of whitespace and
      then of commas, read by `int()`. `None` when the line has no
      `num_rows`, no `num_rows:`, or `int()` raises `ValueError` (which the
      loop swallows). */
  function LineContribution(line: string): (r: Option<int>)
    ensures r.Some? ==> Contains(Strip(line), NumRowsColon)
  {
    var s := Strip(line);
    if !Contains(s, NumRowsKey) then None
    else
      var parts := SplitOn(s, NumRowsColon);
      if |parts| <= 1 then None
      else
        SplitOnSeveral(s, NumRowsColon);
        ParseInt(StripChar(Strip(SplitOn(parts[1], "}")[0]), ','))
  }

  function Contribution(line: string): int {
    match LineContribution(line)
    case Some(v) => v
    case None => 0
  }

  /** The sum of the contributions of all lines. */
  function TotalRows(lines: seq<string>): int
    decreases |lines|
  {
    if lines == [] then 0
    else TotalRows(lines[..|lines| - 1]) + Contribution(lines[|lines| - 1])
  }

  /** `num_unique(file_path)` on the lines of the file. */
  method NumUnique(lines: seq<string>) returns (r: int)
    ensures r == NumValues - TotalRows(lines)
  {
    var total := 0;
    var i := 0;
    while i < |lines|
      invariant 0 <= i <= |lines|
      invariant total == TotalRows(lines[..i])
    {
      TotalRowsStep(lines, i);
      var parsed := LineContribution(lines[i]);
      if parsed.Some? {
        total := total + parsed.value;
      }
      i := i + 1;
    }
    assert lines[..i] == lines;
    r := NumValues - total;
  }

  lemma TotalRowsStep(lines: seq<string>, i: nat)
    requires i < |lines|
    ensures TotalRows(lines[..i + 1]) == TotalRows(lines[..i]) + Contribution(lines[i])
  {
    assert lines[..i + 1][..i] == lines[..i];
  }

  /** The total of a file is the sum of the totals of its parts. */
  lemma {:induction false} TotalRowsAppend(a: seq<string>, b: seq<string>)
    ensures TotalRows(a + b) == TotalRows(a) + TotalRows(b)
    decreases |b|
  {
    if b == [] {
      assert a + b == a;
    } else {
      var init := b[..|b| - 1];
      assert a + b == (a + init) + [b[|b| - 1]];
      assert (a + b)[..|a + b| - 1] == a + init;
      TotalRowsAppend(a, init);
    }
  }

  /** Lines without `num_rows:` add nothing, so a report without one gives
      all 16 structures as unique. */
  lemma {:induction false} NoCountsGiveNumValues(lines: seq<string>)
    requires forall i :: 0 <= i < |lines| ==> !Contains(Strip(lines[i]), NumRowsColon)
    ensures TotalRows(lines) == 0
    ensures NumValues - TotalRows(lines) == NumValues
    decreases |lines|
  {
    if lines != [] {
      NoCountsGiveNumValues(lines[..|lines| - 1]);
    }
  }

  /** The line a dataset summary prints, `num_rows: n`, is read back as `n`. */
  lemma NumRowsLineRoundTrip(n: nat)
    ensures LineContribution(NumRowsColon + " " + Dec(n)) == Some(n)
  {
    var d := Dec(n);
    NumRowsLineToken(d);
    NumRowsTokenValue(d);
    ParseIntDigits(d);
    DecValue(n);
  }

  /** The token of a `num_rows: d` line is what follows the colon. */
  lemma NumRowsLineToken(d: string)
    requires d != [] && AllDigits(d)
    ensures LineContribution(NumRowsColon + " " + d) == ParseInt(StripChar(Strip(SplitOn(" " + d, "}")[0]), ','))
  {
    NumRowsLineSplits(d);
  }

  /** Cutting at `}` and stripping leave the digits of ` d`. */
  lemma NumRowsTokenValue(d: string)
    requires d != [] && AllDigits(d)
    ensures StripChar(Strip(SplitOn(" " + d, "}")[0]), ',') == d
  {
    var rest := " " + d;
    NotContainsWithoutFirstChar(rest, "}");
    SplitOnAbsent(rest, "}");
    StripSpaceDigits(d);
    StripCharUnchanged(d, ',');
  }

  /** A `num_rows: d` line with a digit string `d` is kept by the first
      test and splits into the empty text and ` d`. */
  lemma NumRowsLineSplits(d: string)
    requires d != [] && AllDigits(d)
    ensures Strip(NumRowsColon + " " + d) == NumRowsColon + " " + d
    ensures Contains(NumRowsColon + " " + d, NumRowsKey)
    ensures SplitOn(NumRowsColon + " " + d, NumRowsColon) == ["", " " + d]
  {
    var line := NumRowsColon + " " + d;
    assert line[0] == 'n' && line[|line| - 1] == d[|d| - 1];
    StripUnchanged(line);
    assert OccursAt(line, NumRowsKey, 0) by {
      assert line[..|NumRowsKey|] == NumRowsKey;
    }
    ContainsIff(line, NumRowsKey);
    var rest := " " + d;
    assert OccursAt(line, NumRowsColon, 0) by {
      assert line[..|NumRowsColon|] == NumRowsColon;
    }
    assert FindFrom(line, NumRowsColon, 0) == Some(0);
    assert line[|NumRowsColon|..] == rest;
    NotContainsWithoutFirstChar(rest, NumRowsColon);
    SplitOnAbsent(rest, NumRowsColon);
  }

  // -----------------------------------------------------------------------
  // extract_metric_from_json

  /** `num_unique(file_path) / 16`, Python's true division. */
  function Fraction(lines: seq<string>): real {
    (NumValues - TotalRows(lines)) as real / NumValues as real
  }

  /** `extract_metric_from_json(directories)`: directories without the
      report are skipped, a report that fails to read is logged and
      skipped, and every other directory maps to its fraction. */
  method ExtractMetric(dirs: seq<string>, fs: string -> FileState<seq<string>>)
    returns (results: Dict<string, real>)
    ensures results.Valid()
    ensures results.order == Kept(dirs, fs)
    ensures forall d :: d in results.entries <==> d in dirs && fs(d).Readable?
    ensures forall d :: d in results.entries ==> results.entries[d] == Fraction(fs(d).content)
  {
    results := EmptyDict();
    var i := 0;
    while i < |dirs|
      invariant 0 <= i <= |dirs|
      invariant results.Valid()
      invariant results.order == Kept(dirs[..i], fs)
      invariant forall d :: d in results.entries <==> d in dirs[..i] && fs(d).Readable?
      invariant forall d :: d in results.entries ==> results.entries[d] == Fraction(fs(d).content)
    {
      var d := dirs[i];
      assert dirs[..i + 1][..i] == dirs[..i];
      assert dirs[..i + 1] == dirs[..i] + [d];
      var file := fs(d);
      if file.Readable? {
        var unique := NumUnique(file.content);
        results := results.Assign(d, unique as real / 16.0);
      }
      i := i + 1;
    }
    assert dirs[..i] == dirs;
  }

  // -----------------------------------------------------------------------
  // The plotted series

  /** The point one item gives: its directory's integer and its value,
      when `int()` accepts the directory name. */
  function PointOf(item: (string, real), dirValue: string -> Option<int>): Option<(int, real)> {
    match dirValue(item.0)
    case Some(x) => Some((x, item.1))
    case None => None
  }

  /** The (x, y) points of the items whose directory name `int()` accepts,
      in item order. */
  function ParsedPoints(items: seq<(string, real)>, dirValue: string -> Option<int>): (ps: seq<(int, real)>)
    ensures |ps| <= |items|
    decreases |items|
  {
    if items == [] then []
    else
      var init := ParsedPoints(items[..|items| - 1], dirValue);
      match PointOf(items[|items| - 1], dirValue)
      case Some(p) => init + [p]
      case None => init
  }

  /** When every directory name parses, every item gives a point. */
  lemma {:induction false} ParsedPointsAll(items: seq<(string, real)>, dirValue: string -> Option<int>)
    requires forall i :: 0 <= i < |items| ==> dirValue(items[i].0).Some?
    ensures |ParsedPoints(items, dirValue)| == |items|
    decreases |items|
  {
    if items != [] {
      ParsedPointsAll(items[..|items| - 1], dirValue);
    }
  }

  /** One pass of the loop body for the item `(d, value)`. */
  method PointItem(item: (string, real), xs: seq<int>, ys: seq<real>) returns (xs': seq<int>, ys': seq<real>)
    ensures PointOf(item, DirValue).None? ==> xs' == xs && ys' == ys
    ensures PointOf(item, DirValue).Some? ==> xs' == xs + [PointOf(item, DirValue).value.0] && ys' == ys + [PointOf(item, DirValue).value.1]
  {
    var (d, v) := item;
    xs', ys' := xs, ys;
    var x := DirValue(d);
    if x.Some? {
      assert PointOf(item, DirValue) == Some((x.value, v));
      xs' := xs + [x.value];
      ys' := ys + [v];
    } else {
      assert PointOf(item, DirValue).None?;
    }
  }

  /** The loop over `metric_data.items()` that fills `x_vals` and `y_vals`,
      skipping a directory whose name is not an integer. */
  method CollectPoints(items: seq<(string, real)>) returns (xs: seq<int>, ys: seq<real>)
    ensures xs == Xs(ParsedPoints(items, DirValue)) && ys == Ys(ParsedPoints(items, DirValue))
  {
    xs, ys := [], [];
    ghost var points: seq<(int, real)> := [];
    var i := 0;
    while i < |items|
      invariant 0 <= i <= |items|
      invariant points == ParsedPoints(items[..i], DirValue)
      invariant xs == Xs(points) && ys == Ys(points)
    {
      var item := items[i];
      assert items[..i + 1][..i] == items[..i];
      xs, ys := PointItem(item, xs, ys);
      if PointOf(item, DirValue).Some? {
        XsYsSnoc(points, PointOf(item, DirValue).value);
        points := points + [PointOf(item, DirValue).value];
      }
      i := i + 1;
    }
    assert items[..i] == items;
  }

  /** Python's `<` on `(int, float)` tuples (floats taken as reals). */
  function PairLess(a: (int, real), b: (int, real)): bool {
    a.0 < b.0 || (a.0 == b.0 && a.1 < b.1)
  }

  lemma PairLessStrictTotal()
    ensures StrictTotalOrder(PairLess)
  {
  }

  function Zip(xs: seq<int>, ys: seq<real>): (ps: seq<(int, real)>)
    requires |xs| == |ys|
    ensures |ps| == |xs|
    ensures forall i :: 0 <= i < |ps| ==> ps[i].0 == xs[i] && ps[i].1 == ys[i]
  {
    seq(|xs|, i requires 0 <= i < |xs| => (xs[i], ys[i]))
  }

  predicate NonDecreasing(xs: seq<int>) {
    forall i, j :: 0 <= i < j < |xs| ==> xs[i] <= xs[j]
  }

  /** `x_vals, y_vals = zip(*sorted(zip(x_vals, y_vals)))`: the points in
      increasing order, each (x, y) pair kept together. With no points the
      unpacking raises `ValueError`. */
  function SortPoints(xs: seq<int>, ys: seq<real>): (r: Outcome<(seq<int>, seq<real>)>)
    requires |xs| == |ys|
    ensures r.Raised? <==> xs == []
    ensures r.Raised? ==> r.error == ValueError
    ensures r.Ok? ==>
      && |r.value.0| == |r.value.1| == |xs|
      && NonDecreasing(r.value.0)
      && multiset(Zip(r.value.0, r.value.1)) == multiset(Zip(xs, ys))
  {
    if xs == [] then Raised(ValueError)
    else
      PairLessStrictTotal();
      var sorted := Sort(Zip(xs, ys), PairLess);
      assert |sorted| == |multiset(sorted)| == |xs|;
      var sx := seq(|sorted|, i requires 0 <= i < |sorted| => sorted[i].0);
      var sy := seq(|sorted|, i requires 0 <= i < |sorted| => sorted[i].1);
      assert Zip(sx, sy) == sorted;
      assert NonDecreasing(sx) by {
        forall i, j | 0 <= i < j < |sx| ensures sx[i] <= sx[j] {
          assert !PairLess(sorted[j], sorted[i]);
        }
      }
      Ok((sx, sy))
  }

  /** The keys of the result are the script's directories, whose names all parse. */
  lemma DirectoryItemsParse(items: seq<(string, real)>)
    requires forall i :: 0 <= i < |items| ==> items[i].0 in Directories()
    ensures forall i :: 0 <= i < |items| ==> DirValue(items[i].0).Some?
  {
    DirectoryValues();
    forall i | 0 <= i < |items| ensures DirValue(items[i].0).Some? {
      var k :| 0 <= k < 10 && Directories()[k] == items[i].0;
    }
  }

  /** `x` is a run's conditioning value and `y` the fraction read from
      that run's report. */
  ghost predicate FractionOfDirectory(x: int, y: real, fs: string -> FileState<seq<string>>) {
    exists k :: 0 <= k < 10 && x == Conditioning(k) && fs(Directories()[k]).Readable?
                && y == Fraction(fs(Directories()[k]).content)
  }

  /** Every parsed point is the point of one of the items. */
  lemma {:induction false} ParsedPointOrigin(items: seq<(string, real)>, dirValue: string -> Option<int>, i: nat)
    requires i < |ParsedPoints(items, dirValue)|
    ensures exists j :: 0 <= j < |items| && PointOf(items[j], dirValue) == Some(ParsedPoints(items, dirValue)[i])
    decreases |items|
  {
    var init := items[..|items| - 1];
    if i < |ParsedPoints(init, dirValue)| {
      ParsedPointOrigin(init, dirValue, i);
      var j :| 0 <= j < |init| && PointOf(init[j], dirValue) == Some(ParsedPoints(init, dirValue)[i]);
      assert items[j] == init[j];
    }
  }

  /** The points parsed from the collected dict are the runs' points. */
  lemma ParsedPointsOfDirectories(items: seq<(string, real)>, metric: Dict<string, real>,
                                  fs: string -> FileState<seq<string>>)
    requires metric.Valid() && items == metric.Items()
    requires forall d :: d in metric.entries <==> d in Directories() && fs(d).Readable?
    requires forall d :: d in metric.entries ==> metric.entries[d] == Fraction(fs(d).content)
    ensures forall p :: p in ParsedPoints(items, DirValue) ==> FractionOfDirectory(p.0, p.1, fs)
  {
    forall p | p in ParsedPoints(items, DirValue)
      ensures FractionOfDirectory(p.0, p.1, fs)
    {
      var i :| 0 <= i < |ParsedPoints(items, DirValue)| && ParsedPoints(items, DirValue)[i] == p;
      ParsedPointOrigin(items, DirValue, i);
      var j :| 0 <= j < |items| && PointOf(items[j], DirValue) == Some(p);
      var d := items[j].0;
      var k := DirectoryIndex(d);
      assert p == (Conditioning(k), metric.entries[d]);
    }
  }

  /** Sorting keeps each (x, y) pair, so the sorted series still shows the
      runs' points. */
  lemma SortedSeriesOfDirectories(ps: seq<(int, real)>, sx: seq<int>, sy: seq<real>,
                                  fs: string -> FileState<seq<string>>)
    requires forall p :: p in ps ==> FractionOfDirectory(p.0, p.1, fs)
    requires |sx| == |sy| && multiset(Zip(sx, sy)) == multiset(Zip(Xs(ps), Ys(ps)))
    ensures forall i :: 0 <= i < |sx| ==> FractionOfDirectory(sx[i], sy[i], fs)
  {
    assert Zip(Xs(ps), Ys(ps)) == ps;
    forall i | 0 <= i < |sx|
      ensures FractionOfDirectory(sx[i], sy[i], fs)
    {
      assert Zip(sx, sy)[i] in multiset(Zip(sx, sy));
      assert (sx[i], sy[i]) in ps;
    }
  }

  /** An item whose directory name parses gives a parsed point. */
  lemma {:induction false} ParsedPointsComplete(items: seq<(string, real)>, dirValue: string -> Option<int>, j: nat)
    requires j < |items| && PointOf(items[j], dirValue).Some?
    ensures PointOf(items[j], dirValue).value in ParsedPoints(items, dirValue)
    decreases |items|
  {
    var init := items[..|items| - 1];
    if j < |init| {
      assert init[j] == items[j];
      ParsedPointsComplete(init, dirValue, j);
    }
  }

  /** Every run whose report was read gives its point among the parsed
      points of the collected dict. */
  lemma ParsedPointsCoverDirectories(items: seq<(string, real)>, metric: Dict<string, real>,
                                     fs: string -> FileState<seq<string>>)
    requires metric.Valid() && items == metric.Items()
    requires forall d :: d in metric.entries <==> d in Directories() && fs(d).Readable?
    requires forall d :: d in metric.entries ==> metric.entries[d] == Fraction(fs(d).content)
    ensures forall k :: 0 <= k < 10 && fs(Directories()[k]).Readable? ==>
      (Conditioning(k), Fraction(fs(Directories()[k]).content)) in ParsedPoints(items, DirValue)
  {
    forall k | 0 <= k < 10 && fs(Directories()[k]).Readable?
      ensures (Conditioning(k), Fraction(fs(Directories()[k]).content)) in ParsedPoints(items, DirValue)
    {
      var d := Directories()[k];
      assert d in metric.entries;
      var j :| 0 <= j < |items| && items[j].0 == d;
      ItemOfDirectory(items[j], k, metric.entries[d]);
      ParsedPointsComplete(items, DirValue, j);
    }
  }

  /** The item of the k-th run gives the run's conditioning value with the
      item's value. */
  lemma ItemOfDirectory(item: (string, real), k: nat, v: real)
    requires k < 10 && item == (Directories()[k], v)
    ensures PointOf(item, DirValue) == Some((Conditioning(k), v))
  {
    DirectoryValues();
  }

  /** Sorting keeps each (x, y) pair, so every point is still shown. */
  lemma SortedSeriesKeepsPoints(ps: seq<(int, real)>, sx: seq<int>, sy: seq<real>, p: (int, real))
    requires p in ps
    requires |sx| == |sy| && multiset(Zip(sx, sy)) == multiset(Zip(Xs(ps), Ys(ps)))
    ensures ShowsPoint(sx, sy, p.0, p.1)
  {
    assert Zip(Xs(ps), Ys(ps)) == ps;
    assert p in multiset(Zip(sx, sy));
    var i :| 0 <= i < |sx| && Zip(sx, sy)[i] == p;
  }

  /** The whole script up to the plot: the series is sorted by x and holds
      one point per directory whose report could be read, that run's
      conditioning value with its fraction; when no report could be read,
      the unpacking of the empty sort raises. */
  method PlotSeries(fs: string -> FileState<seq<string>>) returns (r: Outcome<(seq<int>, seq<real>)>)
    ensures r.Raised? <==> forall k :: 0 <= k < 10 ==> !fs(Directories()[k]).Readable?
    ensures r.Raised? ==> r.error == ValueError
    ensures r.Ok? ==> NonDecreasing(r.value.0) && |r.value.0| == |r.value.1| == |Kept(Directories(), fs)|
    ensures r.Ok? ==> forall i :: 0 <= i < |r.value.0| ==> FractionOfDirectory(r.value.0[i], r.value.1[i], fs)
    ensures r.Ok? ==> forall k :: 0 <= k < 10 && fs(Directories()[k]).Readable? ==>
      ShowsPoint(r.value.0, r.value.1, Conditioning(k), Fraction(fs(Directories()[k]).content))
  {
    var metric := ExtractMetric(Directories(), fs);
    var items := metric.Items();
    DirectoryItemsParse(items);
    ParsedPointsAll(items, DirValue);
    var xs, ys := CollectPoints(items);
    assert |xs| == |items| == |Kept(Directories(), fs)|;
    KeptEmpty(Directories(), fs);
    ParsedPointsOfDirectories(items, metric, fs);
    r := SortPoints(xs, ys);
    if r.Ok? {
      var ps := ParsedPoints(items, DirValue);
      SortedSeriesOfDirectories(ps, r.value.0, r.value.1, fs);
      ParsedPointsCoverDirectories(items, metric, fs);
      forall k | 0 <= k < 10 && fs(Directories()[k]).Readable?
        ensures ShowsPoint(r.value.0, r.value.1, Conditioning(k), Fraction(fs(Directories()[k]).content))
      {
        SortedSeriesKeepsPoints(ps, r.value.0, r.value.1, (Conditioning(k), Fraction(fs(Directories()[k]).content)));
      }
    }
  }
}
