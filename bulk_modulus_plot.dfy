/** `plot_properties_bulk_modulus.py`: the bulk moduli a property report
    lists inside `Bulk Modulus: Column([...])`, collected per run directory,
    and the mean per directory that is plotted.

    `float(x.strip())` is a parameter `parseFloat`, a partial function from
    a token to a real (`float()` itself ignores surrounding whitespace, so
    this is also `float(x)`); the file system is a parameter `fs` as in
    `Files`. */
module BulkModulusPlot {
  import opened Wrappers
  import opened Text
  import opened Dicts
  import opened Files

  const Label := "Bulk Modulus:"
  const Opener := "Column(["
  const Closer := "])"

  // -----------------------------------------------------------------------
  // The pattern `Bulk Modulus:\s*Column\(\[([^\]]+)\]\)`

  /** `\s*`: the end of the run of whitespace starting at `p`. */
  function SkipSpace(text: string, p: nat): (q: nat)
    requires p <= |text|
    ensures p <= q <= |text|
    ensures forall k :: p <= k < q ==> IsSpace(text[k])
    ensures q == |text| || !IsSpace(text[q])
    decreases |text| - p
  {
    if p < |text| && IsSpace(text[p]) then SkipSpace(text, p + 1) else p
  }

  /** `[^\]]*`: the end of the run of characters other than `]` starting at `p`. */
  function RunEnd(text: string, p: nat): (q: nat)
    requires p <= |text|
    ensures p <= q <= |text|
    ensures forall k :: p <= k < q ==> text[k] != ']'
    ensures q == |text| || text[q] == ']'
    decreases |text| - p
  {
    if p < |text| && text[p] != ']' then RunEnd(text, p + 1) else p
  }

  /** A match of the pattern starting exactly at `p`: the captured group and
      the position after the match. Both runs are greedy, and neither can
      give back a character and still let the rest match, so the first
      attempt is the only one. */
  function MatchAt(text: string, p: nat): (r: Option<(string, nat)>)
    requires p <= |text|
    ensures r.Some? ==> p < r.value.1 <= |text|
    ensures r.Some? ==> OccursAt(text, Label, p) && EndsWith(text[..r.value.1], Closer)
    ensures r.Some? ==> r.value.0 != [] && forall k :: 0 <= k < |r.value.0| ==> r.value.0[k] != ']'
  {
    if !OccursAt(text, Label, p) then None
    else
      var q := SkipSpace(text, p + |Label|);
      if !OccursAt(text, Opener, q) then None
      else
        var s := q + |Opener|;
        var e := RunEnd(text, s);
        if e == s || !OccursAt(text, Closer, e) then None
        else
          assert text[..e + |Closer|][e..] == Closer;
          Some((text[s..e], e + |Closer|))
  }

  /** `re.findall(pattern, text[p:])`: the groups of the successive
      non-overlapping matches, scanning left to right and resuming after
      each match. */
  function FindAll(text: string, p: nat): (caps: seq<string>)
    requires p <= |text|
    ensures forall i :: 0 <= i < |caps| ==> caps[i] != []
    decreases |text| - p
  {
    if p == |text| then []
    else match MatchAt(text, p)
      case Some((c, e)) => [c] + FindAll(text, e)
      case None => FindAll(text, p + 1)
  }

  /** A text without the label has no match. */
  lemma {:induction false} FindAllWithoutLabel(text: string, p: nat)
    requires p <= |text|
    requires forall k :: p <= k ==> !OccursAt(text, Label, k)
    ensures FindAll(text, p) == []
    decreases |text| - p
  {
    if p < |text| {
      FindAllWithoutLabel(text, p + 1);
    }
  }

  /** `text[p..e]` is one occurrence of the pattern whose group is `c`:
      the label, a run of whitespace, `Column([`, then `c` (non-empty and
      without `]`), then `])`. */
  ghost predicate OccurrenceAt(text: string, p: nat, c: string, e: nat) {
    exists q: nat :: OccurrenceVia(text, p, q, c, e)
  }

  /** An occurrence whose whitespace run ends at `q`. */
  predicate OccurrenceVia(text: string, p: nat, q: nat, c: string, e: nat) {
    && OccursAt(text, Label, p)
    && p + |Label| <= q
    && OccursAt(text, Opener, q)
    && (forall k :: p + |Label| <= k < q ==> IsSpace(text[k]))
    && IsGroup(c)
    && OccursAt(text, c, q + |Opener|)
    && e == q + |Opener| + |c| + |Closer|
    && OccursAt(text, Closer, e - |Closer|)
  }

  /** What `([^\]]+)` can capture. */
  predicate IsGroup(c: string) {
    c != [] && forall k :: 0 <= k < |c| ==> c[k] != ']'
  }

  /** The match attempt at `p` succeeds exactly on an occurrence there, and
      its group and end are those of the occurrence. */
  lemma MatchAtIff(text: string, p: nat, c: string, e: nat)
    requires p <= |text|
    ensures MatchAt(text, p) == Some((c, e)) <==> OccurrenceAt(text, p, c, e)
  {
    if MatchAt(text, p) == Some((c, e)) {
      MatchIsOccurrence(text, p, c, e);
    }
    if OccurrenceAt(text, p, c, e) {
      var q: nat :| OccurrenceVia(text, p, q, c, e);
      OccurrenceIsMatch(text, p, q, c, e);
    }
  }

  /** What the match attempt captures is an occurrence. */
  lemma MatchIsOccurrence(text: string, p: nat, c: string, e: nat)
    requires p <= |text| && MatchAt(text, p) == Some((c, e))
    ensures OccurrenceAt(text, p, c, e)
  {
    var q := SkipSpace(text, p + |Label|);
    var s := q + |Opener|;
    var r := RunEnd(text, s);
    assert c == text[s..r] && e == r + |Closer|;
    assert text[s..s + |c|] == c;
    assert OccurrenceVia(text, p, q, c, e);
  }

  /** An occurrence is what the match attempt captures: the whitespace run
      ends at `C`, and the group ends at the first `]`. */
  lemma OccurrenceIsMatch(text: string, p: nat, q: nat, c: string, e: nat)
    requires OccurrenceVia(text, p, q, c, e)
    ensures MatchAt(text, p) == Some((c, e))
  {
    var s := q + |Opener|;
    assert text[q] == text[q..s][0] == 'C';
    SkipSpaceStops(text, p + |Label|, q);
    forall k | s <= k < s + |c|
      ensures text[k] != ']'
    {
      assert text[k] == text[s..s + |c|][k - s] == c[k - s];
    }
    assert text[s + |c|] == text[e - |Closer|..e][0] == ']';
    RunEndAtClose(text, s, s + |c|);
    assert text[s..s + |c|] == c;
  }

  /** Skipping whitespace stops at the first character that is not. */
  lemma SkipSpaceStops(text: string, p: nat, q: nat)
    requires p <= q < |text| && !IsSpace(text[q])
    requires forall k :: p <= k < q ==> IsSpace(text[k])
    ensures SkipSpace(text, p) == q
  {
  }

  /** An occurrence lies within the text. */
  lemma OccurrenceBounds(text: string, p: nat, c: string, e: nat)
    ensures OccurrenceAt(text, p, c, e) ==> p < e <= |text|
  {
    if OccurrenceAt(text, p, c, e) {
      var q: nat :| OccurrenceVia(text, p, q, c, e);
    }
  }

  /** The scan passes over positions where the label does not start. */
  lemma {:induction false} FindAllSkip(text: string, p: nat, q: nat)
    requires p <= q <= |text|
    requires forall k :: p <= k < q ==> !OccursAt(text, Label, k)
    ensures FindAll(text, p) == FindAll(text, q)
    decreases q - p
  {
    if p < q {
      FindAllSkip(text, p + 1, q);
    }
  }

  /** At an occurrence the scan captures its group and resumes after it. */
  lemma FindAllAt(text: string, p: nat, c: string, e: nat)
    requires p <= |text| && OccurrenceAt(text, p, c, e)
    ensures e <= |text| && FindAll(text, p) == [c] + FindAll(text, e)
  {
    MatchAtIff(text, p, c, e);
  }

  /** The scan from `p` finds nothing exactly when no occurrence starts at
      or after `p`. */
  lemma {:induction false} FindAllEmptyIff(text: string, p: nat)
    requires p <= |text|
    ensures FindAll(text, p) == [] <==> forall k, c, e :: p <= k ==> !OccurrenceAt(text, k, c, e)
    decreases |text| - p
  {
    if p == |text| {
      forall k, c, e | p <= k
        ensures !OccurrenceAt(text, k, c, e)
      {
        OccurrenceBounds(text, k, c, e);
      }
    } else {
      match MatchAt(text, p)
      case Some((c, e)) =>
        MatchAtIff(text, p, c, e);
      case None =>
        FindAllEmptyIff(text, p + 1);
        forall c, e
          ensures !OccurrenceAt(text, p, c, e)
        {
          MatchAtIff(text, p, c, e);
        }
    }
  }

  /** The line the property report prints for one group. */
  function Line(c: string): string {
    Label + " " + Opener + c + Closer
  }

  /** A report: filler text between lines, `fillers[0] + Line(groups[0]) +
      fillers[1] + ... + fillers[|groups|]`. */
  function Report(fillers: seq<string>, groups: seq<string>): (text: string)
    requires |fillers| == |groups| + 1
    ensures groups == [] ==> text == fillers[0]
    decreases |groups|
  {
    if groups == [] then fillers[0]
    else fillers[0] + Line(groups[0]) + Report(fillers[1..], groups[1..])
  }

  /** Text in which the label does not occur. */
  predicate LabelFree(f: string) {
    forall k :: 0 <= k < |f| ==> !OccursAt(f, Label, k)
  }

  /** A report's groups are found in order, whatever label-free text lies
      between its lines. */
  lemma FindAllOfReport(fillers: seq<string>, groups: seq<string>)
    requires |fillers| == |groups| + 1
    requires forall i :: 0 <= i < |fillers| ==> LabelFree(fillers[i])
    requires forall i :: 0 <= i < |groups| ==> IsGroup(groups[i])
    ensures FindAll(Report(fillers, groups), 0) == groups
  {
    var text := Report(fillers, groups);
    assert text[0..] == text;
    FindAllReportAt(text, 0, fillers, groups);
  }

  /** The line the property report prints is found, and its group is the
      text between the brackets. */
  lemma FindAllOneOccurrence(c: string)
    requires IsGroup(c)
    ensures FindAll(Line(c), 0) == [c]
  {
    assert Report(["", ""], [c]) == Line(c);
    FindAllOfReport(["", ""], [c]);
  }

  /** `FindAllOfReport` for a report that is the text from `p` on. */
  lemma {:induction false} FindAllReportAt(text: string, p: nat, fillers: seq<string>, groups: seq<string>)
    requires |fillers| == |groups| + 1
    requires forall i :: 0 <= i < |fillers| ==> LabelFree(fillers[i])
    requires forall i :: 0 <= i < |groups| ==> IsGroup(groups[i])
    requires p <= |text| && text[p..] == Report(fillers, groups)
    ensures FindAll(text, p) == groups
    decreases |groups|
  {
    var f := fillers[0];
    if groups == [] {
      assert text[p..p + |f|] == text[p..];
      FillerHasNoLabel(text, p, f);
      FindAllSkip(text, p, |text|);
    } else {
      var c := groups[0];
      var rest := Report(fillers[1..], groups[1..]);
      var q := p + |f|;
      var r := q + |Line(c)|;
      SplitSuffix(text, p, f, Line(c), rest);
      LineStartsWithLabel(text, q, c);
      FillerHasNoLabel(text, p, f);
      FindAllSkip(text, p, q);
      LineStep(text, q, c);
      FindAllReportAt(text, r, fillers[1..], groups[1..]);
      assert groups == [c] + groups[1..];
    }
  }

  /** Where the text from `p` on is `x + y + z`, the three pieces sit side
      by side. */
  lemma SplitSuffix<T>(t: seq<T>, p: nat, x: seq<T>, y: seq<T>, z: seq<T>)
    requires p <= |t| && t[p..] == x + y + z
    ensures p + |x| + |y| <= |t|
    ensures t[p..p + |x|] == x && t[p + |x|..p + |x| + |y|] == y && t[p + |x| + |y|..] == z
  {
    assert t[p..p + |x|] == t[p..][..|x|];
    assert t[p + |x|..p + |x| + |y|] == t[p..][|x|..|x| + |y|];
    assert t[p + |x| + |y|..] == t[p..][|x| + |y|..];
  }

  /** A report line starts with the label. */
  lemma LineStartsWithLabel(text: string, q: nat, c: string)
    requires OccursAt(text, Line(c), q)
    ensures OccursAt(text, Label, q)
  {
    assert text[q..q + |Label|] == text[q..q + |Line(c)|][..|Label|];
  }

  /** No occurrence of the label starts inside label-free filler, even one
      running into what follows, when that is a report line or the end:
      `B` appears in the label only at its start. */
  lemma FillerHasNoLabel(text: string, p: nat, f: string)
    requires LabelFree(f) && OccursAt(text, f, p)
    requires p + |f| == |text| || OccursAt(text, Label, p + |f|)
    ensures forall k :: p <= k < p + |f| ==> !OccursAt(text, Label, k)
  {
    var n := p + |f|;
    forall k | p <= k < n
      ensures !OccursAt(text, Label, k)
    {
      if k + |Label| <= n {
        assert f == text[p..n];
        SliceOfSlice(text, p, n, k - p, k - p + |Label|);
        assert !OccursAt(f, Label, k - p);
      } else if k + |Label| <= |text| {
        assert text[n] == text[n..n + |Label|][0] == 'B';
        assert text[n] == text[k..k + |Label|][n - k];
        LabelHasOneB(n - k);
      }
    }
  }

  /** `B` occurs in the label only at its start. */
  lemma LabelHasOneB(j: nat)
    requires 0 < j < |Label|
    ensures Label[j] != 'B'
  {
  }

  /** The scan captures a report line's group and resumes after the line. */
  lemma LineStep(text: string, q: nat, c: string)
    requires IsGroup(c) && OccursAt(text, Line(c), q)
    ensures q + |Line(c)| <= |text| && FindAll(text, q) == [c] + FindAll(text, q + |Line(c)|)
  {
    LineIsOccurrence(text, q, c);
    FindAllAt(text, q, c, q + |Line(c)|);
  }

  /** A report line is an occurrence with its own group. */
  lemma LineIsOccurrence(text: string, p: nat, c: string)
    requires IsGroup(c) && OccursAt(text, Line(c), p)
    ensures OccurrenceAt(text, p, c, p + |Line(c)|)
  {
    var q := p + |Label| + 1;
    var s := q + |Opener|;
    var e := p + |Line(c)|;
    assert text[p..e] == Line(c);
    Slices(text[p..e], Label, " ", Opener, c, Closer);
    assert text[p..p + |Label|] == text[p..e][..|Label|];
    assert text[p + |Label|] == text[p..e][|Label|];
    SliceOfSlice(text, p, e, |Label| + 1, |Label| + 1 + |Opener|);
    SliceOfSlice(text, p, e, |Label| + 1 + |Opener|, |Label| + 1 + |Opener| + |c|);
    assert text[e - |Closer|..e] == text[p..e][|Label| + 1 + |Opener| + |c|..];
    assert OccurrenceVia(text, p, q, c, e);
  }

  /** A slice of a slice is a slice. */
  lemma SliceOfSlice<T>(t: seq<T>, p: nat, n: nat, i: nat, j: nat)
    requires p <= n <= |t| && i <= j <= n - p
    ensures t[p..n][i..j] == t[p + i..p + j]
  {
    forall k | 0 <= k < j - i
      ensures t[p..n][i..j][k] == t[p + i..p + j][k]
    {
      assert t[p..n][i..j][k] == t[p..n][i + k] == t[p + i + k];
    }
  }

  /** The five pieces of `t == a + b + c + d + f`, by position. */
  lemma Slices<T>(t: seq<T>, a: seq<T>, b: seq<T>, c: seq<T>, d: seq<T>, f: seq<T>)
    requires t == a + b + c + d + f
    ensures t[..|a|] == a && t[|a|..|a| + |b|] == b
    ensures t[|a| + |b|..|a| + |b| + |c|] == c
    ensures t[|a| + |b| + |c|..|a| + |b| + |c| + |d|] == d
    ensures t[|a| + |b| + |c| + |d|..] == f
  {
  }

  /** The run of non-`]` characters stops at the first `]`. */
  lemma RunEndAtClose(text: string, s: nat, e: nat)
    requires s <= e < |text| && text[e] == ']'
    requires forall k :: s <= k < e ==> text[k] != ']'
    ensures RunEnd(text, s) == e
  {
    var r := RunEnd(text, s);
    assert r == |text| || text[r] == ']';
  }

  // -----------------------------------------------------------------------
  // extract_bulk_moduli_from_file

  /** `[float(x.strip()) for x in tokens]`, raising `ValueError` at the
      first token `float()` rejects. */
  function ParseTokens(tokens: seq<string>, parseFloat: string -> Option<real>): (r: Outcome<seq<real>>)
    ensures r.Ok? <==> forall i :: 0 <= i < |tokens| ==> parseFloat(tokens[i]).Some?
    ensures r.Ok? ==> |r.value| == |tokens|
    ensures r.Ok? ==> forall i :: 0 <= i < |tokens| ==> parseFloat(tokens[i]) == Some(r.value[i])
    ensures r.Raised? ==> r.error == ValueError
    decreases |tokens|
  {
    if tokens == [] then Ok([])
    else
      match parseFloat(tokens[0])
      case None => Raised(ValueError)
      case Some(v) =>
        var rest := ParseTokens(tokens[1..], parseFloat);
        assert forall i :: 1 <= i < |tokens| ==> tokens[i] == tokens[1..][i - 1];
        if rest.Raised? then rest else Ok([v] + rest.value)
  }

  /** The values of one group: one per comma-separated token. */
  function GroupValues(group: string, parseFloat: string -> Option<real>): Outcome<seq<real>> {
    ParseTokens(SplitOn(group, ","), parseFloat)
  }

  /** A group with `k` commas gives `k + 1` values. */
  lemma GroupValueCount(group: string, parseFloat: string -> Option<real>)
    requires GroupValues(group, parseFloat).Ok?
    ensures |GroupValues(group, parseFloat).value| == CountChar(group, ',') + 1
  {
    SplitOnCharCount(group, ',');
  }

  /** The values of all groups: each group's values in token order, the
      groups in match order. */
  function AllValues(groups: seq<string>, parseFloat: string -> Option<real>): (r: Outcome<seq<real>>)
    ensures r.Raised? ==> r.error == ValueError
    decreases |groups|
  {
    if groups == [] then Ok([])
    else
      var before := AllValues(groups[..|groups| - 1], parseFloat);
      var last := GroupValues(groups[|groups| - 1], parseFloat);
      if before.Raised? then before
      else if last.Raised? then last
      else Ok(before.value + last.value)
  }

  /** The number of values is the total over the groups. */
  lemma {:induction false} AllValuesCount(groups: seq<string>, parseFloat: string -> Option<real>)
    requires AllValues(groups, parseFloat).Ok?
    ensures |AllValues(groups, parseFloat).value| == TotalGroupSize(groups)
    decreases |groups|
  {
    if groups != [] {
      AllValuesCount(groups[..|groups| - 1], parseFloat);
      GroupValueCount(groups[|groups| - 1], parseFloat);
    }
  }

  /** The sum over the groups of their comma count plus one. */
  function TotalGroupSize(groups: seq<string>): nat
    decreases |groups|
  {
    if groups == [] then 0
    else TotalGroupSize(groups[..|groups| - 1]) + CountChar(groups[|groups| - 1], ',') + 1
  }

  /** The values a report lists: those of every group of every match. */
  function FileValues(text: string, parseFloat: string -> Option<real>): (r: Outcome<seq<real>>)
    ensures r.Raised? ==> r.error == ValueError
  {
    AllValues(FindAll(text, 0), parseFloat)
  }

  /** `extract_bulk_moduli_from_file` on the file's text. */
  method ExtractBulkModuliFromFile(text: string, parseFloat: string -> Option<real>)
    returns (r: Outcome<seq<real>>)
    ensures r == FileValues(text, parseFloat)
  {
    var matches := FindAll(text, 0);
    var moduli: seq<real> := [];
    var i := 0;
    while i < |matches|
      invariant 0 <= i <= |matches|
      invariant AllValues(matches[..i], parseFloat) == Ok(moduli)
    {
      assert matches[..i + 1][..i] == matches[..i];
      var numbers := GroupValues(matches[i], parseFloat);
      if numbers.Raised? {
        AllValuesRaisedPrefix(matches, i + 1, parseFloat);
        return numbers;
      }
      moduli := moduli + numbers.value;
      i := i + 1;
    }
    assert matches[..i] == matches;
    r := Ok(moduli);
  }

  /** Once the groups so far raise, all of them do, with the same error. */
  lemma {:induction false} AllValuesRaisedPrefix(groups: seq<string>, i: nat, parseFloat: string -> Option<real>)
    requires i <= |groups| && AllValues(groups[..i], parseFloat).Raised?
    ensures AllValues(groups, parseFloat) == AllValues(groups[..i], parseFloat)
    decreases |groups| - i
  {
    if i < |groups| {
      assert groups[..i + 1][..i] == groups[..i];
      AllValuesRaisedPrefix(groups, i + 1, parseFloat);
    } else {
      assert groups[..i] == groups;
    }
  }

  /** A report in which the pattern does not occur gives no values, even
      when it mentions the label. */
  lemma NoOccurrenceNoValues(text: string, parseFloat: string -> Option<real>)
    requires forall p, c, e :: !OccurrenceAt(text, p, c, e)
    ensures FileValues(text, parseFloat) == Ok([])
  {
    FindAllEmptyIff(text, 0);
  }

  /** A report's values are those of its groups, in order. */
  lemma ReportValues(fillers: seq<string>, groups: seq<string>, parseFloat: string -> Option<real>)
    requires |fillers| == |groups| + 1
    requires forall i :: 0 <= i < |fillers| ==> LabelFree(fillers[i])
    requires forall i :: 0 <= i < |groups| ==> IsGroup(groups[i])
    ensures FileValues(Report(fillers, groups), parseFloat) == AllValues(groups, parseFloat)
  {
    FindAllOfReport(fillers, groups);
  }

  // -----------------------------------------------------------------------
  // extract_bulk_moduli_from_dirs

  /** Whether a directory's file lets the collection go on: an absent file
      is skipped, a file that cannot be read raises, and a read file raises
      when one of its tokens is not a number. */
  predicate FileOk(file: FileState<string>, parseFloat: string -> Option<real>) {
    match file
    case Missing => true
    case Unreadable => false
    case Readable(text) => FileValues(text, parseFloat).Ok?
  }

  /** No directory's file makes the collection raise. */
  predicate AllFilesOk(dirs: seq<string>, fs: string -> FileState<string>, parseFloat: string -> Option<real>) {
    forall i :: 0 <= i < |dirs| ==> FileOk(fs(dirs[i]), parseFloat)
  }

  /** Some directory's report lists at least one modulus. */
  predicate SomeFileFilled(dirs: seq<string>, fs: string -> FileState<string>, parseFloat: string -> Option<real>) {
    exists i :: 0 <= i < |dirs| && Filled(fs(dirs[i]), parseFloat)
  }

  /** A report that was read and lists at least one modulus. */
  predicate Filled(file: FileState<string>, parseFloat: string -> Option<real>) {
    file.Readable? && FileValues(file.content, parseFloat).Ok? && FileValues(file.content, parseFloat).value != []
  }

  /** The moduli a directory's report lists; none for a report that is
      absent, unreadable or raises. */
  function ValuesOf(file: FileState<string>, parseFloat: string -> Option<real>): seq<real> {
    if file.Readable? && FileValues(file.content, parseFloat).Ok? then FileValues(file.content, parseFloat).value else []
  }

  /** One turn of the loop of `extract_bulk_moduli_from_dirs`, after the
      directories `seen`: the file of `d` either raises or adds its values. */
  method ExtractStep(seen: seq<string>, d: string, fs: string -> FileState<string>,
                     parseFloat: string -> Option<real>, results: Dict<string, seq<real>>)
    returns (r: Outcome<Dict<string, seq<real>>>)
    requires results.Valid()
    requires results.order == Kept(seen, fs)
    requires forall x :: x in results.entries <==> x in seen && fs(x).Readable?
    ensures r.Ok? <==> FileOk(fs(d), parseFloat)
    ensures r.Raised? ==> r.error == (if fs(d).Unreadable? then OSError else ValueError)
    ensures r.Ok? ==>
      && r.value.Valid()
      && r.value.order == Kept(seen + [d], fs)
      && (forall x :: x in r.value.entries <==> x in seen + [d] && fs(x).Readable?)
      && (forall x :: x in r.value.entries && x != d ==> r.value.entries[x] == results.entries[x])
      && (fs(d).Readable? ==> FileValues(fs(d).content, parseFloat) == Ok(r.value.entries[d]))
  {
    assert (seen + [d])[..|seen|] == seen;
    var file := fs(d);
    if file.Unreadable? {
      return Raised(OSError);
    } else if file.Readable? {
      var moduli := ExtractBulkModuliFromFile(file.content, parseFloat);
      if moduli.Raised? {
        return Raised(ValueError);
      }
      return Ok(results.Assign(d, moduli.value));
    }
    return Ok(results);
  }

  /** `extract_bulk_moduli_from_dirs(directories)`. Nothing catches an
      exception here: the first directory whose file raises ends the
      collection with that exception. */
  method ExtractBulkModuliFromDirs(dirs: seq<string>, fs: string -> FileState<string>,
                                   parseFloat: string -> Option<real>)
    returns (r: Outcome<Dict<string, seq<real>>>)
    ensures r.Ok? <==> AllFilesOk(dirs, fs, parseFloat)
    ensures r.Ok? ==>
      && r.value.Valid()
      && r.value.order == Kept(dirs, fs)
      && (forall d :: d in r.value.entries <==> d in dirs && fs(d).Readable?)
      && (forall d :: d in r.value.entries ==>
            FileValues(fs(d).content, parseFloat) == Ok(r.value.entries[d]))
    ensures r.Raised? ==>
      exists k :: 0 <= k < |dirs| && !FileOk(fs(dirs[k]), parseFloat)
                  && (forall i :: 0 <= i < k ==> FileOk(fs(dirs[i]), parseFloat))
                  && r.error == (if fs(dirs[k]).Unreadable? then OSError else ValueError)
  {
    var results: Dict<string, seq<real>> := EmptyDict();
    var i := 0;
    while i < |dirs|
      invariant 0 <= i <= |dirs|
      invariant forall j :: 0 <= j < i ==> FileOk(fs(dirs[j]), parseFloat)
      invariant results.Valid()
      invariant results.order == Kept(dirs[..i], fs)
      invariant forall d :: d in results.entries <==> d in dirs[..i] && fs(d).Readable?
      invariant forall d :: d in results.entries ==>
        FileValues(fs(d).content, parseFloat) == Ok(results.entries[d])
    {
      assert dirs[..i + 1] == dirs[..i] + [dirs[i]];
      var step := ExtractStep(dirs[..i], dirs[i], fs, parseFloat, results);
      if step.Raised? {
        return Raised(step.error);
      }
      results := step.value;
      i := i + 1;
    }
    assert dirs[..i] == dirs;
    r := Ok(results);
  }

  // -----------------------------------------------------------------------
  // The mean per directory

  function Sum(xs: seq<real>): real
    decreases |xs|
  {
    if xs == [] then 0.0 else Sum(xs[..|xs| - 1]) + xs[|xs| - 1]
  }

  /** `np.mean` of a non-empty list. */
  function Mean(xs: seq<real>): real
    requires xs != []
  {
    Sum(xs) / |xs| as real
  }

  lemma {:induction false} SumBounds(xs: seq<real>, lo: real, hi: real)
    requires forall i :: 0 <= i < |xs| ==> lo <= xs[i] <= hi
    ensures |xs| as real * lo <= Sum(xs) <= |xs| as real * hi
    decreases |xs|
  {
    if xs != [] {
      SumBounds(xs[..|xs| - 1], lo, hi);
    }
  }

  /** The mean lies between the smallest and the largest value. */
  lemma MeanBounds(xs: seq<real>, lo: real, hi: real)
    requires xs != []
    requires forall i :: 0 <= i < |xs| ==> lo <= xs[i] <= hi
    ensures lo <= Mean(xs) <= hi
  {
    SumBounds(xs, lo, hi);
    var n := |xs| as real;
    assert n * lo <= Sum(xs) <= n * hi;
    assert Mean(xs) * n == Sum(xs);
  }

  /** What one item of the loop contributes to the mean trend: its
      directory's integer and the mean of its list, when the name parses and
      the list is non-empty. The name is read by `dirValue`, which the
      script fixes to `DirValue`; the facts about the series below hold for
      any reading. */
  function ItemPoint(item: (string, seq<real>), dirValue: string -> Option<int>): Option<(int, real)> {
    match dirValue(item.0)
    case Some(x) => if item.1 != [] then Some((x, Mean(item.1))) else None
    case None => None
  }

  /** What one item contributes to the scatter: all its moduli, when the
      directory name parses. */
  function ItemScatter(item: (string, seq<real>), dirValue: string -> Option<int>): seq<real> {
    if dirValue(item.0).Some? then item.1 else []
  }

  /** The (x, mean) points of the items, in item order. */
  function MeanPoints(items: seq<(string, seq<real>)>, dirValue: string -> Option<int>): (ps: seq<(int, real)>)
    ensures |ps| <= |items|
    decreases |items|
  {
    if items == [] then []
    else
      var init := MeanPoints(items[..|items| - 1], dirValue);
      match ItemPoint(items[|items| - 1], dirValue)
      case Some(p) => init + [p]
      case None => init
  }

  /** The moduli of those same items, concatenated: the y values of the scatter. */
  function ScatterValues(items: seq<(string, seq<real>)>, dirValue: string -> Option<int>): seq<real>
    decreases |items|
  {
    if items == [] then []
    else ScatterValues(items[..|items| - 1], dirValue) + ItemScatter(items[|items| - 1], dirValue)
  }

  lemma SeriesStep(items: seq<(string, seq<real>)>, i: nat, dirValue: string -> Option<int>)
    requires i < |items|
    ensures MeanPoints(items[..i + 1], dirValue) ==
      match ItemPoint(items[i], dirValue)
      case Some(p) => MeanPoints(items[..i], dirValue) + [p]
      case None => MeanPoints(items[..i], dirValue)
    ensures ScatterValues(items[..i + 1], dirValue) == ScatterValues(items[..i], dirValue) + ItemScatter(items[i], dirValue)
  {
    assert items[..i + 1][..i] == items[..i];
  }

  /** One pass of the loop body for the item `(d, moduli)`. */
  method SeriesItem(item: (string, seq<real>), xs: seq<int>, ys: seq<real>, scatterY: seq<real>)
    returns (xs': seq<int>, ys': seq<real>, scatterY': seq<real>)
    ensures ItemPoint(item, DirValue).None? ==> xs' == xs && ys' == ys
    ensures ItemPoint(item, DirValue).Some? ==>
      xs' == xs + [ItemPoint(item, DirValue).value.0] && ys' == ys + [ItemPoint(item, DirValue).value.1]
    ensures scatterY' == scatterY + ItemScatter(item, DirValue)
  {
    var (d, moduli) := item;
    xs', ys', scatterY' := xs, ys, scatterY;
    var x := DirValue(d);
    assert ItemScatter(item, DirValue) == if x.Some? then moduli else [];
    if x.Some? {
      if moduli != [] {
        assert ItemPoint(item, DirValue) == Some((x.value, Mean(moduli)));
        xs' := xs + [x.value];
        ys' := ys + [Mean(moduli)];
        scatterY' := AppendAll(scatterY, moduli);
      } else {
        assert ItemPoint(item, DirValue).None?;
        assert scatterY + moduli == scatterY;
      }
    } else {
      assert ItemPoint(item, DirValue).None?;
      assert scatterY + [] == scatterY;
    }
  }

  /** The inner loop that appends each modulus to the scatter values. */
  method AppendAll(acc: seq<real>, moduli: seq<real>) returns (r: seq<real>)
    ensures r == acc + moduli
  {
    r := acc;
    var k := 0;
    while k < |moduli|
      invariant 0 <= k <= |moduli|
      invariant r == acc + moduli[..k]
    {
      r := r + [moduli[k]];
      assert moduli[..k + 1] == moduli[..k] + [moduli[k]];
      k := k + 1;
    }
    assert moduli[..k] == moduli;
  }

  /** The loop over `all_bulk_moduli.items()`: a directory whose name is not
      an integer is skipped; an empty list adds no mean and no scatter points.
      The horizontal jitter of the scatter points is random and not modelled. */
  method MeanSeries(items: seq<(string, seq<real>)>) returns (xs: seq<int>, ys: seq<real>, scatterY: seq<real>)
    ensures xs == Xs(MeanPoints(items, DirValue)) && ys == Ys(MeanPoints(items, DirValue))
    ensures scatterY == ScatterValues(items, DirValue)
  {
    xs, ys, scatterY := [], [], [];
    ghost var points: seq<(int, real)> := [];
    var i := 0;
    while i < |items|
      invariant 0 <= i <= |items|
      invariant points == MeanPoints(items[..i], DirValue)
      invariant xs == Xs(points) && ys == Ys(points)
      invariant scatterY == ScatterValues(items[..i], DirValue)
    {
      SeriesStep(items, i, DirValue);
      var item := items[i];
      xs, ys, scatterY := SeriesItem(item, xs, ys, scatterY);
      if ItemPoint(item, DirValue).Some? {
        XsYsSnoc(points, ItemPoint(item, DirValue).value);
        points := points + [ItemPoint(item, DirValue).value];
      }
      i := i + 1;
    }
    assert items[..i] == items;
  }

  /** Every plotted point is the point of one of the items. */
  lemma {:induction false} MeanPointOrigin(items: seq<(string, seq<real>)>, dirValue: string -> Option<int>, i: nat)
    requires i < |MeanPoints(items, dirValue)|
    ensures exists j :: 0 <= j < |items| && ItemPoint(items[j], dirValue) == Some(MeanPoints(items, dirValue)[i])
    decreases |items|
  {
    var init := items[..|items| - 1];
    if i < |MeanPoints(init, dirValue)| {
      MeanPointOrigin(init, dirValue, i);
      var j :| 0 <= j < |init| && ItemPoint(init[j], dirValue) == Some(MeanPoints(init, dirValue)[i]);
      assert items[j] == init[j];
    }
  }

  /** An item that has a point gives the series a point. */
  lemma {:induction false} MeanPointsNonEmpty(items: seq<(string, seq<real>)>, dirValue: string -> Option<int>, j: nat)
    requires j < |items| && ItemPoint(items[j], dirValue).Some?
    ensures MeanPoints(items, dirValue) != []
    decreases |items|
  {
    var init := items[..|items| - 1];
    if j < |init| {
      assert init[j] == items[j];
      MeanPointsNonEmpty(init, dirValue, j);
    }
  }

  /** A plotted mean brings its moduli into the scatter, so there are
      scatter values whenever there are means. */
  lemma {:induction false} ScatterNonEmpty(items: seq<(string, seq<real>)>, dirValue: string -> Option<int>)
    requires MeanPoints(items, dirValue) != []
    ensures ScatterValues(items, dirValue) != []
    decreases |items|
  {
    var init := items[..|items| - 1];
    if MeanPoints(init, dirValue) != [] {
      ScatterNonEmpty(init, dirValue);
    }
  }

  // -----------------------------------------------------------------------
  // The range of the x = y line

  /** `min(s)` of a non-empty list. */
  function SeqMin(s: seq<real>): (m: real)
    requires s != []
    ensures exists i :: 0 <= i < |s| && s[i] == m
    ensures forall i :: 0 <= i < |s| ==> m <= s[i]
    decreases |s|
  {
    if |s| == 1 then s[0]
    else
      var m := SeqMin(s[1..]);
      assert forall i :: 1 <= i < |s| ==> s[i] == s[1..][i - 1];
      if s[0] <= m then s[0] else m
  }

  /** `max(s)` of a non-empty list. */
  function SeqMax(s: seq<real>): (m: real)
    requires s != []
    ensures exists i :: 0 <= i < |s| && s[i] == m
    ensures forall i :: 0 <= i < |s| ==> s[i] <= m
    decreases |s|
  {
    if |s| == 1 then s[0]
    else
      var m := SeqMax(s[1..]);
      assert forall i :: 1 <= i < |s| ==> s[i] == s[1..][i - 1];
      if m <= s[0] then s[0] else m
  }

  function AsReals(xs: seq<int>): (r: seq<real>)
    ensures |r| == |xs| && forall i :: 0 <= i < |xs| ==> r[i] == xs[i] as real
  {
    seq(|xs|, i requires 0 <= i < |xs| => xs[i] as real)
  }

  /** `min_val` and `max_val`: the smallest and the largest of the plotted x
      values and the scatter values. `min()` of an empty list raises
      `ValueError`, and the x values are looked at first. */
  function PlotRange(xs: seq<int>, ys: seq<real>): (r: Outcome<(real, real)>)
    ensures r.Raised? <==> xs == [] || ys == []
    ensures r.Raised? ==> r.error == ValueError
    ensures r.Ok? ==> forall i :: 0 <= i < |xs| ==> r.value.0 <= xs[i] as real <= r.value.1
    ensures r.Ok? ==> forall i :: 0 <= i < |ys| ==> r.value.0 <= ys[i] <= r.value.1
    ensures r.Ok? ==> r.value.0 in AsReals(xs) + ys && r.value.1 in AsReals(xs) + ys
  {
    if xs == [] || ys == [] then Raised(ValueError)
    else
      var rx := AsReals(xs);
      var lo := if SeqMin(rx) <= SeqMin(ys) then SeqMin(rx) else SeqMin(ys);
      var hi := if SeqMax(ys) <= SeqMax(rx) then SeqMax(rx) else SeqMax(ys);
      assert lo in rx + ys by {
        var i :| 0 <= i < |rx| && rx[i] == SeqMin(rx);
        var j :| 0 <= j < |ys| && ys[j] == SeqMin(ys);
        assert (rx + ys)[i] == rx[i] && (rx + ys)[|rx| + j] == ys[j];
      }
      assert hi in rx + ys by {
        var i :| 0 <= i < |rx| && rx[i] == SeqMax(rx);
        var j :| 0 <= j < |ys| && ys[j] == SeqMax(ys);
        assert (rx + ys)[i] == rx[i] && (rx + ys)[|rx| + j] == ys[j];
      }
      Ok((lo, hi))
  }

  // -----------------------------------------------------------------------
  // The script

  /** What the figure shows: the mean trend (`x_vals`, `y_vals`), the
      scatter values (`all_points_y`) and the ends of the x = y line. */
  datatype Plot = Plot(xs: seq<int>, ys: seq<real>, scatterY: seq<real>, lo: real, hi: real)

  /** `(x, y)` is the point of one of the ten directories: its conditioning
      value and the mean of the moduli its report lists. */
  predicate PointOfDirectory(x: int, y: real, fs: string -> FileState<string>, parseFloat: string -> Option<real>) {
    exists k :: 0 <= k < 10 && x == Conditioning(k) && Filled(fs(Directories()[k]), parseFloat)
                && y == Mean(FileValues(fs(Directories()[k]).content, parseFloat).value)
  }

  /** The lists `f(x)` of the elements `x` of `xs`, concatenated in order. */
  function FlatMap<A, B>(xs: seq<A>, f: A -> seq<B>): seq<B>
    decreases |xs|
  {
    if xs == [] then [] else FlatMap(xs[..|xs| - 1], f) + f(xs[|xs| - 1])
  }

  /** What one element contributes is part of the whole. */
  lemma {:induction false} FlatMapHolds<A, B>(xs: seq<A>, f: A -> seq<B>, j: nat, y: B)
    requires j < |xs| && y in f(xs[j])
    ensures y in FlatMap(xs, f)
    decreases |xs|
  {
    var init := xs[..|xs| - 1];
    if j < |init| {
      assert init[j] == xs[j];
      FlatMapHolds(init, f, j, y);
    }
  }

  /** The scatter values of the directories `ds`: the moduli of each, one
      directory after the other. */
  function ScatterOfDirs(ds: seq<string>, fs: string -> FileState<string>, parseFloat: string -> Option<real>): seq<real> {
    FlatMap(ds, d => ValuesOf(fs(d), parseFloat))
  }

  /** The trend points of the directories `ds`: for each whose report lists
      moduli and whose name is an integer, that integer and the mean. */
  function TrendOfDirs(ds: seq<string>, fs: string -> FileState<string>, parseFloat: string -> Option<real>): seq<(int, real)> {
    FlatMap(ds, DirPoints(fs, parseFloat))
  }

  function DirPoints(fs: string -> FileState<string>, parseFloat: string -> Option<real>): string -> seq<(int, real)> {
    d => DirPoint(d, fs, parseFloat)
  }

  /** The trend point of one directory, if it has one. */
  function DirPoint(d: string, fs: string -> FileState<string>, parseFloat: string -> Option<real>): seq<(int, real)> {
    if Filled(fs(d), parseFloat) && DirValue(d).Some? then [(DirValue(d).value, Mean(ValuesOf(fs(d), parseFloat)))] else []
  }

  /** What the figure shows, directory by directory over the directories
      whose report was read (in the order of `Directories()`): the trend
      is their points and the scatter their moduli; every directory whose
      report lists moduli has its point on the trend, and every trend point
      is such a directory's; the x = y line spans every plotted x and every
      scatter value, and its ends are two of those values. */
  ghost predicate PlotShowsDirectories(p: Plot, fs: string -> FileState<string>, parseFloat: string -> Option<real>) {
    && p.xs == Xs(TrendOfDirs(Kept(Directories(), fs), fs, parseFloat))
    && p.ys == Ys(TrendOfDirs(Kept(Directories(), fs), fs, parseFloat))
    && p.scatterY == ScatterOfDirs(Kept(Directories(), fs), fs, parseFloat)
    && (forall i :: 0 <= i < |p.xs| && i < |p.ys| ==> PointOfDirectory(p.xs[i], p.ys[i], fs, parseFloat))
    && (forall k :: 0 <= k < 10 && Filled(fs(Directories()[k]), parseFloat) ==>
          ShowsPoint(p.xs, p.ys, Conditioning(k), Mean(ValuesOf(fs(Directories()[k]), parseFloat))))
    && (forall i :: 0 <= i < |p.xs| ==> p.lo <= p.xs[i] as real <= p.hi)
    && (forall i :: 0 <= i < |p.scatterY| ==> p.lo <= p.scatterY[i] <= p.hi)
    && p.lo in AsReals(p.xs) + p.scatterY && p.hi in AsReals(p.xs) + p.scatterY
  }

  /** The script up to the figure. It raises when a report raises, and with
      `ValueError` from `min()` when no directory's report lists a modulus;
      otherwise it plots one point per directory whose report lists moduli. */
  method PlotBulkModulus(fs: string -> FileState<string>, parseFloat: string -> Option<real>)
    returns (r: Outcome<Plot>)
    ensures r.Ok? <==> AllFilesOk(Directories(), fs, parseFloat) && SomeFileFilled(Directories(), fs, parseFloat)
    ensures r.Raised? && AllFilesOk(Directories(), fs, parseFloat) ==> r.error == ValueError
    ensures r.Ok? ==> PlotShowsDirectories(r.value, fs, parseFloat)
  {
    var moduli := ExtractBulkModuliFromDirs(Directories(), fs, parseFloat);
    if moduli.Raised? {
      return Raised(moduli.error);
    }
    var items := moduli.value.Items();
    var xs, ys, scatterY := MeanSeries(items);
    SeriesOfDirectories(items, moduli.value, fs, parseFloat);
    var range := PlotRange(xs, scatterY);
    if range.Raised? {
      return Raised(range.error);
    }
    var plot := Plot(xs, ys, scatterY, range.value.0, range.value.1);
    SeriesOfKept(items, moduli.value, fs, parseFloat);
    TrendHasFilledDirectories(moduli.value.order, fs, parseFloat);
    PlotOfSeries(plot, MeanPoints(items, DirValue), fs, parseFloat);
    r := Ok(plot);
  }

  /** A plot whose trend and scatter are those of the directories read,
      whose trend points are directories' points and include every
      directory with moduli, and whose line spans its values from one of
      them to another, shows the directories. */
  lemma PlotOfSeries(plot: Plot, points: seq<(int, real)>,
                     fs: string -> FileState<string>, parseFloat: string -> Option<real>)
    requires points == TrendOfDirs(Kept(Directories(), fs), fs, parseFloat)
    requires plot.xs == Xs(points) && plot.ys == Ys(points)
    requires plot.scatterY == ScatterOfDirs(Kept(Directories(), fs), fs, parseFloat)
    requires forall i :: 0 <= i < |points| ==> PointOfDirectory(points[i].0, points[i].1, fs, parseFloat)
    requires forall k :: 0 <= k < 10 && Filled(fs(Directories()[k]), parseFloat) ==>
      (Conditioning(k), Mean(ValuesOf(fs(Directories()[k]), parseFloat))) in points
    requires forall i :: 0 <= i < |plot.xs| ==> plot.lo <= plot.xs[i] as real <= plot.hi
    requires forall i :: 0 <= i < |plot.scatterY| ==> plot.lo <= plot.scatterY[i] <= plot.hi
    requires plot.lo in AsReals(plot.xs) + plot.scatterY && plot.hi in AsReals(plot.xs) + plot.scatterY
    ensures PlotShowsDirectories(plot, fs, parseFloat)
  {
    forall i | 0 <= i < |plot.xs| && i < |plot.ys|
      ensures PointOfDirectory(plot.xs[i], plot.ys[i], fs, parseFloat)
    {
      assert plot.xs[i] == points[i].0 && plot.ys[i] == points[i].1;
    }
    forall k | 0 <= k < 10 && Filled(fs(Directories()[k]), parseFloat)
      ensures ShowsPoint(plot.xs, plot.ys, Conditioning(k), Mean(ValuesOf(fs(Directories()[k]), parseFloat)))
    {
      PointShown(points, (Conditioning(k), Mean(ValuesOf(fs(Directories()[k]), parseFloat))));
    }
  }

  /** The series computed from the collected dict is that of the
      directories it lists, in their order, and it lists every directory
      whose report was read. */
  lemma SeriesOfKept(items: seq<(string, seq<real>)>, moduli: Dict<string, seq<real>>,
                     fs: string -> FileState<string>, parseFloat: string -> Option<real>)
    requires moduli.Valid() && items == moduli.Items()
    requires forall d :: d in moduli.entries <==> d in Directories() && fs(d).Readable?
    requires forall d :: d in moduli.entries ==> FileValues(fs(d).content, parseFloat) == Ok(moduli.entries[d])
    ensures MeanPoints(items, DirValue) == TrendOfDirs(moduli.order, fs, parseFloat)
    ensures ScatterValues(items, DirValue) == ScatterOfDirs(moduli.order, fs, parseFloat)
    ensures forall k :: 0 <= k < 10 && fs(Directories()[k]).Readable? ==> Directories()[k] in moduli.order
  {
    DirectoryValues();
    forall i | 0 <= i < |items|
      ensures items[i].0 == moduli.order[i] && DirValue(moduli.order[i]).Some?
      ensures fs(moduli.order[i]).Readable? && FileValues(fs(moduli.order[i]).content, parseFloat) == Ok(items[i].1)
    {
      var k := DirectoryIndex(moduli.order[i]);
    }
    SeriesOfItems(items, moduli.order, fs, parseFloat);
  }

  /** Over directories that include every one whose report was read, the
      trend holds the point of each directory whose report lists moduli. */
  lemma TrendHasFilledDirectories(ds: seq<string>, fs: string -> FileState<string>, parseFloat: string -> Option<real>)
    requires forall k :: 0 <= k < 10 && fs(Directories()[k]).Readable? ==> Directories()[k] in ds
    ensures forall k :: 0 <= k < 10 && Filled(fs(Directories()[k]), parseFloat) ==>
      (Conditioning(k), Mean(ValuesOf(fs(Directories()[k]), parseFloat))) in TrendOfDirs(ds, fs, parseFloat)
  {
    DirectoryValues();
    forall k | 0 <= k < 10 && Filled(fs(Directories()[k]), parseFloat)
      ensures (Conditioning(k), Mean(ValuesOf(fs(Directories()[k]), parseFloat))) in TrendOfDirs(ds, fs, parseFloat)
    {
      var d := Directories()[k];
      var j :| 0 <= j < |ds| && ds[j] == d;
      var p := (Conditioning(k), Mean(ValuesOf(fs(d), parseFloat)));
      assert DirPoints(fs, parseFloat)(d) == [p];
      FlatMapHolds(ds, DirPoints(fs, parseFloat), j, p);
    }
  }

  /** The series of items that pair each directory with the moduli its
      report lists is the series of those directories. */
  lemma {:induction false} SeriesOfItems(items: seq<(string, seq<real>)>, ds: seq<string>,
                                         fs: string -> FileState<string>, parseFloat: string -> Option<real>)
    requires |items| == |ds|
    requires forall i :: 0 <= i < |items| ==> items[i].0 == ds[i] && DirValue(ds[i]).Some?
    requires forall i :: 0 <= i < |items| ==>
      fs(ds[i]).Readable? && FileValues(fs(ds[i]).content, parseFloat) == Ok(items[i].1)
    ensures MeanPoints(items, DirValue) == TrendOfDirs(ds, fs, parseFloat)
    ensures ScatterValues(items, DirValue) == ScatterOfDirs(ds, fs, parseFloat)
    decreases |items|
  {
    if items != [] {
      var n := |items| - 1;
      SeriesOfItems(items[..n], ds[..n], fs, parseFloat);
      assert ValuesOf(fs(ds[n]), parseFloat) == items[n].1;
    }
  }

  /** The series computed from the collected dict: it has a point exactly
      when some report lists moduli, it then has scatter values too, and
      each of its points is the point of the directory it comes from. */
  lemma SeriesOfDirectories(items: seq<(string, seq<real>)>, moduli: Dict<string, seq<real>>,
                            fs: string -> FileState<string>, parseFloat: string -> Option<real>)
    requires moduli.Valid() && items == moduli.Items()
    requires forall d :: d in moduli.entries <==> d in Directories() && fs(d).Readable?
    requires forall d :: d in moduli.entries ==> FileValues(fs(d).content, parseFloat) == Ok(moduli.entries[d])
    ensures MeanPoints(items, DirValue) != [] <==> SomeFileFilled(Directories(), fs, parseFloat)
    ensures MeanPoints(items, DirValue) != [] ==> ScatterValues(items, DirValue) != []
    ensures forall i :: 0 <= i < |MeanPoints(items, DirValue)| ==>
              PointOfDirectory(MeanPoints(items, DirValue)[i].0, MeanPoints(items, DirValue)[i].1, fs, parseFloat)
  {
    PlotPointsAreDirectoryPoints(items, moduli, fs, parseFloat);
    FilledItemGivesPoint(items, moduli, fs, parseFloat);
    if MeanPoints(items, DirValue) != [] {
      ScatterNonEmpty(items, DirValue);
      var p := MeanPoints(items, DirValue)[0];
      assert PointOfDirectory(p.0, p.1, fs, parseFloat);
      var k :| 0 <= k < 10 && p.0 == Conditioning(k) && fs(Directories()[k]).Readable?
               && FileValues(fs(Directories()[k]).content, parseFloat).Ok?
               && FileValues(fs(Directories()[k]).content, parseFloat).value != []
               && p.1 == Mean(FileValues(fs(Directories()[k]).content, parseFloat).value);
      assert SomeFileFilled(Directories(), fs, parseFloat);
    }
  }

  /** Each point of the trend computed from the collected dict is the point
      of the directory it comes from. */
  lemma PlotPointsAreDirectoryPoints(items: seq<(string, seq<real>)>, moduli: Dict<string, seq<real>>,
                                     fs: string -> FileState<string>, parseFloat: string -> Option<real>)
    requires moduli.Valid() && items == moduli.Items()
    requires forall d :: d in moduli.entries <==> d in Directories() && fs(d).Readable?
    requires forall d :: d in moduli.entries ==> FileValues(fs(d).content, parseFloat) == Ok(moduli.entries[d])
    ensures forall i :: 0 <= i < |MeanPoints(items, DirValue)| ==>
              PointOfDirectory(MeanPoints(items, DirValue)[i].0, MeanPoints(items, DirValue)[i].1, fs, parseFloat)
  {
    forall i | 0 <= i < |MeanPoints(items, DirValue)|
      ensures PointOfDirectory(MeanPoints(items, DirValue)[i].0, MeanPoints(items, DirValue)[i].1, fs, parseFloat)
    {
      PlotPointIsDirectoryPoint(items, moduli, fs, parseFloat, i);
    }
  }

  lemma PlotPointIsDirectoryPoint(items: seq<(string, seq<real>)>, moduli: Dict<string, seq<real>>,
                                  fs: string -> FileState<string>, parseFloat: string -> Option<real>, i: nat)
    requires moduli.Valid() && items == moduli.Items()
    requires forall d :: d in moduli.entries <==> d in Directories() && fs(d).Readable?
    requires forall d :: d in moduli.entries ==> FileValues(fs(d).content, parseFloat) == Ok(moduli.entries[d])
    requires i < |MeanPoints(items, DirValue)|
    ensures PointOfDirectory(MeanPoints(items, DirValue)[i].0, MeanPoints(items, DirValue)[i].1, fs, parseFloat)
  {
    MeanPointOrigin(items, DirValue, i);
    var j :| 0 <= j < |items| && ItemPoint(items[j], DirValue) == Some(MeanPoints(items, DirValue)[i]);
    var d := items[j].0;
    assert d in Directories() && fs(d).Readable?;
    assert FileValues(fs(d).content, parseFloat) == Ok(items[j].1);
    var k := DirectoryIndex(d);
    ItemPointAt(items[j], k);
  }

  /** The point of the item of the `k`-th directory. */
  lemma ItemPointAt(item: (string, seq<real>), k: nat)
    requires k < 10 && DirValue(item.0) == Some(Conditioning(k)) && item.1 != []
    ensures ItemPoint(item, DirValue) == Some((Conditioning(k), Mean(item.1)))
  {
  }

  /** A directory whose report lists moduli gives a plotted mean. */
  lemma FilledItemGivesPoint(items: seq<(string, seq<real>)>, moduli: Dict<string, seq<real>>,
                             fs: string -> FileState<string>, parseFloat: string -> Option<real>)
    requires moduli.Valid() && items == moduli.Items()
    requires forall d :: d in moduli.entries <==> d in Directories() && fs(d).Readable?
    requires forall d :: d in moduli.entries ==> FileValues(fs(d).content, parseFloat) == Ok(moduli.entries[d])
    ensures SomeFileFilled(Directories(), fs, parseFloat) ==> MeanPoints(items, DirValue) != []
  {
    if k :| 0 <= k < |Directories()| && fs(Directories()[k]).Readable?
            && FileValues(fs(Directories()[k]).content, parseFloat).Ok?
            && FileValues(fs(Directories()[k]).content, parseFloat).value != [] {
      var d := Directories()[k];
      assert d in moduli.entries;
      var i :| 0 <= i < |items| && items[i].0 == d;
      var k' := DirectoryIndex(d);
      ItemPointAt(items[i], k');
      MeanPointsNonEmpty(items, DirValue, i);
    }
  }
}
