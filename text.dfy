/** The parts of Python's `str` and `int` behaviour that the scripts rely on,
    modelled on `string` (a sequence of Unicode code points):
    `isspace`, `strip()`, `strip(c)`, `startswith`, `endswith`, `in`,
    `split(sep)`, `split()`, `lower()` on ASCII letters, `int(...)` and the
    `str(n)` / `f"{n:02d}"` formatting of non-negative integers. */
module Text {
  import opened Wrappers

  // ---------------------------------------------------------------------
  // Characters

  /** Python's `str.isspace()`, which is also what `\s` matches in a `str`
      regular expression. */
  predicate IsSpace(c: char) {
    || c == ' ' || c == '\t' || c == '\n' || c == '\r' || c == '\U{B}' || c == '\U{C}'
    || ('\U{1C}' <= c <= '\U{1F}') || c == '\U{85}' || c == '\U{A0}' || c == '\U{1680}'
    || ('\U{2000}' <= c <= '\U{200A}') || c == '\U{2028}' || c == '\U{2029}'
    || c == '\U{202F}' || c == '\U{205F}' || c == '\U{3000}'
  }

  predicate IsDigit(c: char) {
    '0' <= c <= '9'
  }

  function DigitValue(c: char): (d: nat)
    requires IsDigit(c)
    ensures d < 10
  {
    (c as int) - ('0' as int)
  }

  function DigitChar(d: nat): (c: char)
    requires d < 10
    ensures IsDigit(c) && DigitValue(c) == d
  {
    (('0' as int) + d) as char
  }

  // ---------------------------------------------------------------------
  // Prefixes, suffixes, substrings

  predicate StartsWith(s: string, prefix: string) {
    |prefix| <= |s| && s[..|prefix|] == prefix
  }

  predicate EndsWith(s: string, suffix: string) {
    |suffix| <= |s| && s[|s| - |suffix|..] == suffix
  }

  predicate OccursAt(s: string, sub: string, i: nat) {
    i + |sub| <= |s| && s[i..i + |sub|] == sub
  }

  /** `s.find(sub, i)`: the first position at or after `i` where `sub` occurs. */
  function FindFrom(s: string, sub: string, i: nat): (r: Option<nat>)
    ensures r.Some? ==> i <= r.value && OccursAt(s, sub, r.value)
    ensures r.Some? ==> forall k :: i <= k < r.value ==> !OccursAt(s, sub, k)
    ensures r.None? ==> forall k :: i <= k ==> !OccursAt(s, sub, k)
    decreases |s| - i
  {
    if i + |sub| > |s| then None
    else if OccursAt(s, sub, i) then Some(i)
    else FindFrom(s, sub, i + 1)
  }

  /** Python's `sub in s`. */
  predicate Contains(s: string, sub: string) {
    FindFrom(s, sub, 0).Some?
  }

  lemma ContainsIff(s: string, sub: string)
    ensures Contains(s, sub) <==> exists k: nat :: OccursAt(s, sub, k)
  {
    var r := FindFrom(s, sub, 0);
    if r.Some? {
      assert OccursAt(s, sub, r.value);
    }
  }

  /** No occurrence of `sub` can start inside `s` when `s` has no character
      equal to `sub`'s first character. */
  lemma NotContainsWithoutFirstChar(s: string, sub: string)
    requires |sub| > 0
    requires forall i :: 0 <= i < |s| ==> s[i] != sub[0]
    ensures !Contains(s, sub)
  {
    forall k: nat
      ensures !OccursAt(s, sub, k)
    {
      if k + |sub| <= |s| {
        assert s[k..k + |sub|][0] == s[k];
      }
    }
  }

  /** `s.rfind(c)`: the last position holding `c`. */
  function RFind(s: string, c: char): (r: Option<nat>)
    ensures r.Some? ==> r.value < |s| && s[r.value] == c
    ensures r.Some? ==> forall j :: r.value < j < |s| ==> s[j] != c
    ensures r.None? ==> forall j :: 0 <= j < |s| ==> s[j] != c
    decreases |s|
  {
    if s == [] then None
    else if s[|s| - 1] == c then Some(|s| - 1)
    else RFind(s[..|s| - 1], c)
  }

  // ---------------------------------------------------------------------
  // Stripping

  /** Drops the leading characters that satisfy `p`. */
  function TrimStart(s: string, p: char -> bool): (r: string)
    ensures |r| <= |s| && r == s[|s| - |r|..]
    ensures r == [] || !p(r[0])
    decreases |s|
  {
    if s != [] && p(s[0]) then TrimStart(s[1..], p) else s
  }

  /** Every character `TrimStart` drops satisfies `p`. */
  lemma {:induction false} TrimStartDropped(s: string, p: char -> bool)
    ensures forall i :: 0 <= i < |s| - |TrimStart(s, p)| ==> p(s[i])
    decreases |s|
  {
    if s != [] && p(s[0]) {
      TrimStartDropped(s[1..], p);
      assert forall i :: 1 <= i < |s| ==> s[i] == s[1..][i - 1];
    }
  }

  /** Drops the trailing characters that satisfy `p`. */
  function TrimEnd(s: string, p: char -> bool): (r: string)
    ensures |r| <= |s| && r == s[..|r|]
    ensures r == [] || !p(r[|r| - 1])
    decreases |s|
  {
    if s != [] && p(s[|s| - 1]) then TrimEnd(s[..|s| - 1], p) else s
  }

  /** Every character `TrimEnd` drops satisfies `p`. */
  lemma {:induction false} TrimEndDropped(s: string, p: char -> bool)
    ensures forall i :: |TrimEnd(s, p)| <= i < |s| ==> p(s[i])
    decreases |s|
  {
    if s != [] && p(s[|s| - 1]) {
      TrimEndDropped(s[..|s| - 1], p);
    }
  }

  /** `s.strip()` */
  function Strip(s: string): string {
    TrimEnd(TrimStart(s, IsSpace), IsSpace)
  }

  /** `s.strip(c)` with a one-character argument. */
  function StripChar(s: string, c: char): string {
    TrimEnd(TrimStart(s, x => x == c), x => x == c)
  }

  /** Stripping leaves a string alone when neither end can be stripped. */
  lemma StripUnchanged(s: string)
    requires s != [] ==> !IsSpace(s[0]) && !IsSpace(s[|s| - 1])
    ensures Strip(s) == s
  {
  }

  lemma StripCharUnchanged(s: string, c: char)
    requires s != [] ==> s[0] != c && s[|s| - 1] != c
    ensures StripChar(s, c) == s
  {
  }

  // ---------------------------------------------------------------------
  // Splitting

  /** `s.split(sep)` for a non-empty separator. */
  function SplitOn(s: string, sep: string): (r: seq<string>)
    requires |sep| > 0
    ensures |r| >= 1
    decreases |s|
  {
    match FindFrom(s, sep, 0)
    case None => [s]
    case Some(k) => [s[..k]] + SplitOn(s[k + |sep|..], sep)
  }

  /** `sep.join(parts)` */
  function Join(parts: seq<string>, sep: string): string
    decreases |parts|
  {
    if parts == [] then ""
    else if |parts| == 1 then parts[0]
    else parts[0] + sep + Join(parts[1..], sep)
  }

  /** Splitting a string that does not contain the separator gives it back whole. */
  lemma SplitOnAbsent(s: string, sep: string)
    requires |sep| > 0 && !Contains(s, sep)
    ensures SplitOn(s, sep) == [s]
  {
  }

  /** More than one part means the separator occurs. */
  lemma SplitOnSeveral(s: string, sep: string)
    requires |sep| > 0 && |SplitOn(s, sep)| > 1
    ensures Contains(s, sep)
  {
  }

  /** Joining the parts with the separator restores the string. */
  lemma {:induction false} JoinSplitOn(s: string, sep: string)
    requires |sep| > 0
    ensures Join(SplitOn(s, sep), sep) == s
    decreases |s|
  {
    match FindFrom(s, sep, 0)
    case None =>
    case Some(k) =>
      var rest := s[k + |sep|..];
      var tail := SplitOn(rest, sep);
      var parts := [s[..k]] + tail;
      assert SplitOn(s, sep) == parts;
      JoinSplitOn(rest, sep);
      assert |parts| > 1 && parts[0] == s[..k] && parts[1..] == tail;
      assert Join(parts, sep) == s[..k] + sep + Join(tail, sep);
      assert s == s[..k] + sep + rest by {
        assert s[k..k + |sep|] == sep;
      }
  }

  /** The number of occurrences of `c` in `s`. */
  function CountChar(s: string, c: char): nat
    decreases |s|
  {
    if s == [] then 0 else (if s[0] == c then 1 else 0) + CountChar(s[1..], c)
  }

  lemma {:induction false} CountCharAppend(a: string, b: string, c: char)
    ensures CountChar(a + b, c) == CountChar(a, c) + CountChar(b, c)
    decreases |a|
  {
    if a != [] {
      assert (a + b)[0] == a[0];
      assert (a + b)[1..] == a[1..] + b;
      CountCharAppend(a[1..], b, c);
    } else {
      assert a + b == b;
    }
  }

  lemma {:induction false} CountCharAbsent(s: string, c: char)
    requires forall i :: 0 <= i < |s| ==> s[i] != c
    ensures CountChar(s, c) == 0
    decreases |s|
  {
    if s != [] {
      CountCharAbsent(s[1..], c);
    }
  }

  /** Splitting on a one-character separator gives one more part than there
      are separators. */
  lemma {:induction false} SplitOnCharCount(s: string, c: char)
    ensures |SplitOn(s, [c])| == CountChar(s, c) + 1
    decreases |s|
  {
    match FindFrom(s, [c], 0)
    case None =>
      forall i | 0 <= i < |s| ensures s[i] != c {
        assert !OccursAt(s, [c], i);
        assert s[i..i + 1] == [s[i]];
      }
      CountCharAbsent(s, c);
    case Some(k) =>
      var rest := s[k + 1..];
      SplitOnCharCount(rest, c);
      forall i | 0 <= i < k ensures s[..k][i] != c {
        assert !OccursAt(s, [c], i);
        assert s[i..i + 1] == [s[i]];
      }
      CountCharAbsent(s[..k], c);
      assert s[k..k + 1] == [c];
      assert s == s[..k] + ([c] + rest);
      CountCharAppend(s[..k], [c] + rest, c);
      assert ([c] + rest)[1..] == rest;
  }

  predicate NoSpace(w: string) {
    forall i :: 0 <= i < |w| ==> !IsSpace(w[i])
  }

  /** The longest prefix of `s` with no whitespace. */
  function Word(s: string): (w: string)
    ensures |w| <= |s| && w == s[..|w|]
    ensures |w| == |s| || IsSpace(s[|w|])
    ensures NoSpace(w)
    decreases |s|
  {
    if s == [] || IsSpace(s[0]) then [] else [s[0]] + Word(s[1..])
  }

  /** `s.split()`: the maximal runs of non-whitespace characters. */
  function Fields(s: string): (r: seq<string>)
    ensures forall i :: 0 <= i < |r| ==> r[i] != [] && NoSpace(r[i])
    decreases |s|
  {
    var t := TrimStart(s, IsSpace);
    if t == [] then []
    else
      var w := Word(t);
      assert !IsSpace(t[0]);
      var rest := Fields(t[|w|..]);
      ConsIndex(w, rest);
      [w] + rest
  }

  /** The elements after the head of `[x] + xs` are those of `xs`. */
  lemma ConsIndex<T>(x: T, xs: seq<T>)
    ensures forall i :: 0 < i < |xs| + 1 ==> ([x] + xs)[i] == xs[i - 1]
  {
  }

  /** `split()` gives no field exactly when the string is all whitespace. */
  lemma FieldsEmptyIff(s: string)
    ensures Fields(s) == [] <==> forall i :: 0 <= i < |s| ==> IsSpace(s[i])
  {
    var t := TrimStart(s, IsSpace);
    TrimStartDropped(s, IsSpace);
    if t != [] {
      assert !IsSpace(s[|s| - |t|]);
    }
  }

  /** Words separated by single spaces are split back into those words:
      the fields are the maximal whitespace-free runs, in order. */
  lemma {:induction false} FieldsOfJoin(ws: seq<string>)
    requires forall i :: 0 <= i < |ws| ==> ws[i] != [] && NoSpace(ws[i])
    ensures Fields(Join(ws, " ")) == ws
    decreases |ws|
  {
    if |ws| == 1 {
      FieldsOfWord(ws[0]);
    } else if |ws| > 1 {
      var w, rest := ws[0], ws[1..];
      var j := Join(rest, " ");
      assert Join(ws, " ") == w + " " + j;
      assert forall i :: 0 <= i < |rest| ==> rest[i] == ws[i + 1];
      FieldsOfJoin(rest);
      JoinStartsWithWord(rest);
      FieldsCons(w, j);
      HeadTail(ws);
    }
  }

  /** A non-empty sequence is its head followed by its tail. */
  lemma HeadTail<T>(s: seq<T>)
    requires s != []
    ensures s == [s[0]] + s[1..]
  {
  }

  /** A single word is its own one field. */
  lemma FieldsOfWord(w: string)
    requires w != [] && NoSpace(w)
    ensures Fields(w) == [w]
  {
    WordOfSpaceFree(w, []);
    assert w + [] == w;
    assert w[|w|..] == [];
  }

  /** A word, a space and text starting with a non-space character: the
      word is the first field, and the text gives the rest. */
  lemma FieldsCons(w: string, j: string)
    requires w != [] && NoSpace(w)
    requires j != [] && !IsSpace(j[0])
    ensures Fields(w + " " + j) == [w] + Fields(j)
  {
    var s := w + " " + j;
    assert s == w + ([' '] + j);
    WordOfSpaceFree(w, [' '] + j);
    assert s[|w|..] == [' '] + j;
    FieldsSkipSpace(' ', j);
  }

  /** The longest whitespace-free prefix of a word followed by whitespace
      or nothing is the word, and nothing is trimmed before it. */
  lemma WordOfSpaceFree(w: string, t: string)
    requires w != [] && NoSpace(w)
    requires t == [] || IsSpace(t[0])
    ensures TrimStart(w + t, IsSpace) == w + t
    ensures Word(w + t) == w
  {
    var s := w + t;
    assert s[0] == w[0];
    var u := Word(s);
    assert u == s[..|w|] == w;
  }

  /** Leading whitespace does not change the fields. */
  lemma FieldsSkipSpace(c: char, t: string)
    requires IsSpace(c)
    ensures Fields([c] + t) == Fields(t)
  {
    assert ([c] + t)[1..] == t;
  }

  /** A join of words starts with a non-whitespace character. */
  lemma JoinStartsWithWord(ws: seq<string>)
    requires |ws| > 0 && ws[0] != [] && NoSpace(ws[0])
    ensures Join(ws, " ") != [] && !IsSpace(Join(ws, " ")[0])
  {
    if |ws| > 1 {
      assert Join(ws, " ")[0] == ws[0][0];
    }
  }

  // ---------------------------------------------------------------------
  // Case

  /** `lower()` on one character; only ASCII letters are mapped. */
  function LowerChar(c: char): char {
    if 'A' <= c <= 'Z' then ((c as int) - ('A' as int) + ('a' as int)) as char else c
  }

  function Lower(s: string): (r: string)
    ensures |r| == |s|
    ensures forall i :: 0 <= i < |s| ==> r[i] == LowerChar(s[i])
  {
    seq(|s|, i requires 0 <= i < |s| => LowerChar(s[i]))
  }

  /** Lowering twice is lowering once. */
  lemma LowerIdempotent(s: string)
    ensures Lower(Lower(s)) == Lower(s)
  {
  }

  // ---------------------------------------------------------------------
  // Integers

  /** `str(n)` for a non-negative integer. */
  function Dec(n: nat): (r: string)
    ensures |r| >= 1
    ensures forall i :: 0 <= i < |r| ==> IsDigit(r[i])
    decreases n
  {
    if n < 10 then [DigitChar(n)] else Dec(n / 10) + [DigitChar(n % 10)]
  }

  /** `format(d, "0>w")`: left-pad a digit string with zeros to `width`. */
  function ZeroPad(d: string, width: nat): (r: string)
    ensures |r| == if |d| >= width then |d| else width
    ensures EndsWith(r, d)
    ensures forall i :: 0 <= i < |r| - |d| ==> r[i] == '0'
  {
    Zeros(width - |d|) + d
  }

  function Zeros(k: int): (z: string)
    ensures |z| == if k > 0 then k else 0
    ensures forall i :: 0 <= i < |z| ==> z[i] == '0'
  {
    if k <= 0 then "" else seq(k, _ => '0')
  }

  /** `f"{n:02d}"` */
  function Pad2(n: nat): string {
    ZeroPad(Dec(n), 2)
  }

  /** Digits separated by single underscores, as `int()` accepts them. */
  predicate IsDigitRun(d: string) {
    && |d| > 0 && IsDigit(d[0]) && IsDigit(d[|d| - 1])
    && forall i :: 0 <= i < |d| ==> IsDigit(d[i]) || (d[i] == '_' && i + 1 < |d| && IsDigit(d[i + 1]))
  }

  /** The value of a run of digits, underscores ignored. */
  function DigitsValue(d: string): nat
    decreases |d|
  {
    if d == [] then 0
    else
      var c := d[|d| - 1];
      if IsDigit(c) then DigitsValue(d[..|d| - 1]) * 10 + DigitValue(c)
      else DigitsValue(d[..|d| - 1])
  }

  /** `int(s)`; `None` stands for the `ValueError` it raises. Only ASCII
      digits are accepted. */
  function ParseInt(s: string): Option<int> {
    var t := Strip(s);
    if |t| > 0 && (t[0] == '+' || t[0] == '-') then
      if IsDigitRun(t[1..]) then
        assert IsDigit(t[1..][0]);
        var v: int := DigitsValue(t[1..]);
        Some(if t[0] == '-' then -v else v)
      else None
    else if IsDigitRun(t) then
      assert IsDigit(t[0]);
      Some(DigitsValue(t))
    else None
  }

  /** `int()` accepts only text that holds a digit once stripped. */
  lemma ParseIntHasDigit(s: string)
    requires ParseInt(s).Some?
    ensures exists i :: 0 <= i < |Strip(s)| && IsDigit(Strip(s)[i])
  {
    var t := Strip(s);
    if |t| > 0 && (t[0] == '+' || t[0] == '-') {
      assert IsDigit(t[1..][0]) && t[1..][0] == t[1];
    } else {
      assert IsDigit(t[0]);
    }
  }

  lemma {:induction false} DecValue(n: nat)
    ensures DigitsValue(Dec(n)) == n
    decreases n
  {
    if n >= 10 {
      var d := Dec(n);
      assert d[..|d| - 1] == Dec(n / 10);
      DecValue(n / 10);
    }
  }

  /** A leading zero does not change the value. */
  lemma {:induction false} LeadingZeroValue(d: string)
    ensures DigitsValue("0" + d) == DigitsValue(d)
    decreases |d|
  {
    if d != [] {
      assert ("0" + d)[..|d|] == "0" + d[..|d| - 1];
      LeadingZeroValue(d[..|d| - 1]);
    }
  }

  lemma {:induction false} ZerosValue(k: nat, d: string)
    ensures DigitsValue(Zeros(k) + d) == DigitsValue(d)
    decreases k
  {
    if k > 0 {
      assert Zeros(k) + d == "0" + (Zeros(k - 1) + d);
      LeadingZeroValue(Zeros(k - 1) + d);
      ZerosValue(k - 1, d);
    } else {
      assert Zeros(k) + d == d;
    }
  }

  lemma ZeroPadValue(d: string, width: nat)
    ensures DigitsValue(ZeroPad(d, width)) == DigitsValue(d)
  {
    ZerosValue(if width > |d| then width - |d| else 0, d);
  }

  predicate AllDigits(t: string) {
    forall i :: 0 <= i < |t| ==> IsDigit(t[i])
  }

  /** A space in front of a numeral is stripped away. */
  lemma StripSpaceDigits(d: string)
    requires d != [] && AllDigits(d)
    ensures Strip(" " + d) == d
  {
    TrimStartSpace(d);
    StripDigits(d);
  }

  lemma StripDigits(d: string)
    requires d != [] && AllDigits(d)
    ensures Strip(d) == d
  {
    assert IsDigit(d[0]) && IsDigit(d[|d| - 1]);
    StripUnchanged(d);
  }

  lemma TrimStartSpace(d: string)
    ensures TrimStart(" " + d, IsSpace) == TrimStart(d, IsSpace)
  {
    var rest := " " + d;
    assert rest[1..] == d;
    assert IsSpace(rest[0]);
  }

  /** `int()` of a plain non-empty run of ASCII digits is its decimal value. */
  lemma ParseIntDigits(t: string)
    requires t != [] && AllDigits(t)
    ensures ParseInt(t) == Some(DigitsValue(t))
  {
    assert !IsSpace(t[0]) && !IsSpace(t[|t| - 1]);
    StripUnchanged(t);
    assert t[0] != '+' && t[0] != '-';
    assert IsDigitRun(t);
  }

  lemma ZeroPadDigits(d: string, width: nat)
    requires AllDigits(d)
    ensures AllDigits(ZeroPad(d, width))
  {
    var t := ZeroPad(d, width);
    forall i | 0 <= i < |t| ensures IsDigit(t[i]) {
      if i >= |t| - |d| {
        assert t[i] == t[|t| - |d|..][i - (|t| - |d|)];
      }
    }
  }

  /** `int()` reads back every zero-padded decimal numeral: the inverse of
      `f"{n:0{w}d}"`. */
  lemma ParseIntZeroPad(n: nat, width: nat)
    ensures ParseInt(ZeroPad(Dec(n), width)) == Some(n)
  {
    ZeroPadDigits(Dec(n), width);
    ParseIntDigits(ZeroPad(Dec(n), width));
    ZeroPadValue(Dec(n), width);
    DecValue(n);
  }

  /** Zero-padded decimals of different numbers differ, so `f"{i:02d}"`
      tags never collide. */
  lemma Pad2Injective(i: nat, j: nat)
    requires Pad2(i) == Pad2(j)
    ensures i == j
  {
    ParseIntZeroPad(i, 2);
    ParseIntZeroPad(j, 2);
  }

  /** Below 100, `f"{n:02d}"` is exactly the tens digit then the units digit. */
  lemma Pad2TwoDigits(n: nat)
    requires n < 100
    ensures Pad2(n) == [DigitChar(n / 10), DigitChar(n % 10)]
  {
    if n < 10 {
      assert Dec(n) == [DigitChar(n)];
      assert ZeroPad("0" + Dec(n), 2) == "0" + Dec(n);
      assert DigitChar(0) == '0';
    } else {
      assert Dec(n / 10) == [DigitChar(n / 10)];
    }
  }
}
