/** What the two plotting scripts share: the run directories they read,
    the file each directory may hold, and `os.path.basename`. */
module Files {
  import opened Wrappers
  import opened Text

  /** A file the scripts look for: absent (`os.path.exists` is false),
      present but failing to read, or read to `content`. */
  datatype FileState<+T> = Missing | Unreadable | Readable(content: T)

  /** The directories whose file could be read, each once, in the order of
      their first appearance: the keys of a dict filled by a loop that
      assigns `results[d]` for each such `d`. */
  ghost function Kept<T>(dirs: seq<string>, fs: string -> FileState<T>): seq<string>
    decreases |dirs|
  {
    if dirs == [] then []
    else
      var init := Kept(dirs[..|dirs| - 1], fs);
      var d := dirs[|dirs| - 1];
      if fs(d).Readable? && d !in init then init + [d] else init
  }

  /** No directory is kept exactly when no directory's file could be read. */
  lemma {:induction false} KeptEmpty<T>(dirs: seq<string>, fs: string -> FileState<T>)
    ensures Kept(dirs, fs) == [] <==> forall i :: 0 <= i < |dirs| ==> !fs(dirs[i]).Readable?
    decreases |dirs|
  {
    if dirs != [] {
      var init := dirs[..|dirs| - 1];
      KeptEmpty(init, fs);
      assert forall i :: 0 <= i < |init| ==> init[i] == dirs[i];
    }
  }

  /** The `k`-th value of `range(40, 440, 40)`. */
  function Conditioning(k: nat): nat {
    40 * (k + 1)
  }

  /** The directories both plotting scripts read: `./results/ml_bulk_modulus/40`, …, `/400`. */
  function Directories(): (ds: seq<string>)
    ensures |ds| == 10
  {
    seq(10, k requires 0 <= k < 10 => "./results/ml_bulk_modulus/" + Dec(Conditioning(k)))
  }

  /** `os.path.basename`: the text after the last `/`. */
  function Basename(p: string): string {
    match RFind(p, '/')
    case Some(i) => p[i + 1..]
    case None => p
  }

  /** The base name is a final segment of the path and holds no `/`. */
  lemma BasenameIsLastSegment(p: string)
    ensures forall i :: 0 <= i < |Basename(p)| ==> Basename(p)[i] != '/'
    ensures EndsWith(p, Basename(p))
  {
    match RFind(p, '/')
    case Some(i) =>
      assert Basename(p) == p[i + 1..];
      assert p[|p| - |Basename(p)|..] == Basename(p);
    case None =>
      assert p[|p| - |p|..] == p;
  }

  /** `int(os.path.basename(d))`, `None` where `int()` raises `ValueError`. */
  function DirValue(d: string): Option<int> {
    ParseInt(Basename(d))
  }

  /** The x column and the y column of a list of points. */
  function Xs(ps: seq<(int, real)>): seq<int> {
    seq(|ps|, j requires 0 <= j < |ps| => ps[j].0)
  }

  function Ys(ps: seq<(int, real)>): seq<real> {
    seq(|ps|, j requires 0 <= j < |ps| => ps[j].1)
  }

  /** Appending a point appends its coordinates to the two columns. */
  lemma XsYsSnoc(ps: seq<(int, real)>, p: (int, real))
    ensures Xs(ps + [p]) == Xs(ps) + [p.0]
    ensures Ys(ps + [p]) == Ys(ps) + [p.1]
  {
  }

  /** The two columns hold the point `(x, y)` at the same position. */
  ghost predicate ShowsPoint(xs: seq<int>, ys: seq<real>, x: int, y: real) {
    exists i :: 0 <= i < |xs| && i < |ys| && xs[i] == x && ys[i] == y
  }

  /** A point of a list is shown by its two columns. */
  lemma PointShown(ps: seq<(int, real)>, p: (int, real))
    requires p in ps
    ensures ShowsPoint(Xs(ps), Ys(ps), p.0, p.1)
  {
    var i :| 0 <= i < |ps| && ps[i] == p;
    assert Xs(ps)[i] == p.0 && Ys(ps)[i] == p.1;
  }

  /** Every directory name ends in its conditioning value. */
  lemma DirectoryValues()
    ensures forall k :: 0 <= k < 10 ==> DirValue(Directories()[k]) == Some(Conditioning(k))
  {
    forall k | 0 <= k < 10
      ensures DirValue(Directories()[k]) == Some(Conditioning(k))
    {
      var d := Dec(Conditioning(k));
      var p := Directories()[k];
      var prefix := "./results/ml_bulk_modulus/";
      assert p == prefix + d;
      assert p[|prefix| - 1] == '/';
      assert forall j :: |prefix| <= j < |p| ==> p[j] == d[j - |prefix|];
      assert forall j :: 0 <= j < |d| ==> d[j] != '/';
      assert RFind(p, '/') == Some(|prefix| - 1);
      assert Basename(p) == d;
      ParseIntDigits(d);
      DecValue(Conditioning(k));
    }
  }

  /** The position of one of the ten directories, with the value its name parses to. */
  lemma DirectoryIndex(d: string) returns (k: nat)
    requires d in Directories()
    ensures k < 10 && Directories()[k] == d && DirValue(d) == Some(Conditioning(k))
  {
    DirectoryValues();
    k :| 0 <= k < 10 && Directories()[k] == d;
  }
}
