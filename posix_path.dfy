/** The parts of Python's `posixpath` the nodes use: `splitext`, `join` and `basename`. */
module PosixPath {
  import opened Text

  /** Index of the last `/` in `p`, or -1. */
  function LastSep(p: string): int
  {
    LastIndexOf(p, '/')
  }

  /** `os.path.basename(p)`: everything after the last `/`. */
  function Basename(p: string): (r: string)
    ensures '/' !in r
    ensures |r| <= |p| && r == p[|p| - |r|..]
    ensures |r| < |p| ==> p[|p| - |r| - 1] == '/'
  {
    p[LastSep(p) + 1..]
  }

  /** `p[from..to]` is made of dots only. */
  predicate DotsOnly(p: string, from: int, to: int)
    requires 0 <= from && to <= |p|
  {
    forall k :: from <= k < to ==> p[k] == '.'
  }

  /** The three facts that fix `LastIndexOf` determine it. */
  lemma LastIndexOfUnique(s: string, c: char, r: int)
    requires -1 <= r < |s| && (r >= 0 ==> s[r] == c)
    requires forall k :: r < k < |s| ==> s[k] != c
    ensures LastIndexOf(s, c) == r
  {
  }

  /**
   * `os.path.splitext(p)` on POSIX: the extension runs from the last `.` of the final
   * component, unless everything before that dot in the component is dots (a hidden file).
   */
  function SplitExt(p: string): (r: (string, string))
    ensures r.0 + r.1 == p
    ensures r.1 != [] ==>
      && r.1[0] == '.' && '.' !in r.1[1..] && '/' !in r.1
      && LastSep(p) < |r.0| && !DotsOnly(p, LastSep(p) + 1, |r.0|)
    ensures r.1 == [] ==>
      forall k :: LastSep(p) < k < |p| && p[k] == '.' ==> DotsOnly(p, LastSep(p) + 1, k)
  {
    var sep := LastSep(p);
    var dot := LastIndexOf(p, '.');
    if dot > sep && !DotsOnly(p, sep + 1, dot) then
      assert p[dot..][1..] == p[dot + 1..];
      (p[..dot], p[dot..])
    else
      (p, [])
  }

  /** `os.path.join(a, b)` for two components. */
  function JoinPath(a: string, b: string): (r: string)
    ensures '/' !in b && b != [] ==> Basename(r) == b
  {
    if |b| > 0 && b[0] == '/' then b
    else if a == [] || a[|a| - 1] == '/' then
      var r := a + b;
      assert '/' !in b ==> LastSep(r) == |a| - 1 by {
        if '/' !in b { LastSepAppend(a, b); }
      }
      r
    else
      var r := a + "/" + b;
      assert '/' !in b ==> LastSep(r) == |a| by {
        if '/' !in b { LastSepAppend(a + "/", b); }
      }
      r
  }

  lemma LastSepAppend(a: string, b: string)
    requires '/' !in b
    requires a == [] || a[|a| - 1] == '/'
    ensures LastSep(a + b) == |a| - 1
  {
    var r := a + b;
    assert forall k :: |a| <= k < |r| ==> r[k] == b[k - |a|];
    if a != [] {
      assert r[|a| - 1] == '/';
    }
  }

  /**
   * Appending an extension (a dot, then no dot and no `/`) to a stem whose final component is
   * not all dots gives a path that `splitext` splits back into that stem and that extension.
   */
  lemma SplitExtOfAppended(stem: string, ext: string)
    requires |ext| >= 1 && ext[0] == '.' && '.' !in ext[1..] && '/' !in ext
    requires !DotsOnly(stem, LastSep(stem) + 1, |stem|)
    ensures SplitExt(stem + ext) == (stem, ext)
  {
    var p := stem + ext;
    assert forall k :: |stem| <= k < |p| ==> p[k] == ext[k - |stem|];
    assert forall k :: 0 <= k < |stem| ==> p[k] == stem[k];
    var sep := LastSep(stem);
    LastIndexOfUnique(p, '/', sep);
    forall k | |stem| < k < |p| ensures p[k] != '.' {
      assert p[k] == ext[1..][k - |stem| - 1];
    }
    LastIndexOfUnique(p, '.', |stem|);
    assert !DotsOnly(p, sep + 1, |stem|);
    assert p[..|stem|] == stem && p[|stem|..] == ext;
  }

  lemma SplitExtExamples()
    ensures SplitExt("dir/img.png") == ("dir/img", ".png")
    ensures SplitExt("dir/.hidden") == ("dir/.hidden", "")
  {
    var p := "dir/img.png";
    LastIndexOfUnique(p, '/', 3);
    LastIndexOfUnique(p, '.', 7);
    assert p[4] == 'i' && !DotsOnly(p, 4, 7);
    assert p[..7] == "dir/img" && p[7..] == ".png";
    var q := "dir/.hidden";
    LastIndexOfUnique(q, '/', 3);
    LastIndexOfUnique(q, '.', 4);
  }
}
