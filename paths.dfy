/** POSIX path arithmetic from Python's `os.path`: `splitext`, `basename`
    and two-argument `join`. */
module Paths {

  /** Index of the last occurrence of `c` among the first `n` characters of
      `s`, or -1 when there is none. */
  function LastIndex(s: string, c: char, n: nat): (i: int)
    requires n <= |s|
    ensures -1 <= i < n
    ensures 0 <= i ==> s[i] == c
  {
    if n == 0 then -1
    else if s[n - 1] == c then n - 1
    else LastIndex(s, c, n - 1)
  }

  /** No `c` comes after `LastIndex` among the first `n` characters. */
  lemma {:induction false} LastIndexIsLast(s: string, c: char, n: nat)
    requires n <= |s|
    ensures forall j :: LastIndex(s, c, n) < j < n ==> s[j] != c
  {
    if n > 0 && s[n - 1] != c {
      LastIndexIsLast(s, c, n - 1);
    }
  }

  /** Python's `s.rfind(c)`. */
  function RFind(s: string, c: char): (i: int)
    ensures -1 <= i < |s|
    ensures 0 <= i ==> s[i] == c
    ensures forall j :: i < j < |s| ==> s[j] != c
  {
    LastIndexIsLast(s, c, |s|);
    LastIndex(s, c, |s|)
  }

  /** The three properties in RFind's contract pin its result down. */
  lemma RFindUnique(s: string, c: char, i: int)
    requires -1 <= i < |s|
    requires 0 <= i ==> s[i] == c
    requires forall j :: i < j < |s| ==> s[j] != c
    ensures RFind(s, c) == i
  {
  }

  /** Some character of `s` in `[lo, hi)` is not a '.'. */
  predicate HasNonDotIn(s: string, lo: int, hi: int)
  {
    exists i :: lo <= i < hi && 0 <= i < |s| && s[i] != '.'
  }

  /** Where `os.path.splitext` starts the extension: at the last '.' of the
      final component, provided a character other than '.' precedes it
      there; otherwise at the end. */
  function ExtStart(p: string): (i: nat)
    ensures i <= |p|
    ensures i < |p| ==> p[i] == '.' && forall j :: i < j < |p| ==> p[j] != '.' && p[j] != '/'
  {
    var sep := RFind(p, '/');
    var dot := RFind(p, '.');
    if sep < dot && HasNonDotIn(p, sep + 1, dot) then dot else |p|
  }

  /** `os.path.splitext(p)[0]`. */
  function Stem(p: string): (r: string)
    ensures |r| <= |p|
  {
    p[..ExtStart(p)]
  }

  /** `os.path.splitext(p)[1]`. */
  function Ext(p: string): (r: string)
    ensures r != [] ==> r[0] == '.' && forall j :: 1 <= j < |r| ==> r[j] != '.' && r[j] != '/'
  {
    var i := ExtStart(p);
    assert forall j :: 1 <= j < |p[i..]| ==> p[i..][j] == p[i + j];
    p[i..]
  }

  /** `os.path.splitext`: the stem and the extension make up the path. */
  function SplitExt(p: string): (r: (string, string))
    ensures r.0 + r.1 == p
  {
    assert p[..ExtStart(p)] + p[ExtStart(p)..] == p;
    (Stem(p), Ext(p))
  }

  /** `os.path.basename`: what follows the last '/'. */
  function Basename(p: string): (r: string)
    ensures forall j :: 0 <= j < |r| ==> r[j] != '/'
  {
    if |p| == 0 || p[|p| - 1] == '/' then "" else Basename(p[..|p| - 1]) + [p[|p| - 1]]
  }

  /** The final component is the part after the last '/'. */
  lemma {:induction false} BasenameAt(p: string)
    ensures |Basename(p)| == |p| - RFind(p, '/') - 1
    ensures forall j :: 0 <= j < |Basename(p)| ==> Basename(p)[j] == p[RFind(p, '/') + 1 + j]
  {
    if |p| > 0 && p[|p| - 1] != '/' {
      var q := p[..|p| - 1];
      BasenameAt(q);
      var i := RFind(q, '/');
      forall j | i < j < |p|
        ensures p[j] != '/'
      {
        if j < |q| { assert p[j] == q[j]; }
      }
      RFindUnique(p, '/', i);
    }
  }

  /** Appending a name without '/' extends the final component. */
  lemma {:induction false} BasenameAppend(b: string, e: string)
    requires forall j :: 0 <= j < |e| ==> e[j] != '/'
    ensures Basename(b + e) == Basename(b) + e
    decreases |e|
  {
    if |e| > 0 {
      var e' := e[..|e| - 1];
      assert (b + e)[..|b + e| - 1] == b + e';
      BasenameAppend(b, e');
      assert e' + [e[|e| - 1]] == e;
    } else {
      assert b + e == b;
    }
  }

  /** Two-argument `os.path.join`. */
  function Join(a: string, b: string): string
  {
    if |b| > 0 && b[0] == '/' then b
    else if a == "" || a[|a| - 1] == '/' then a + b
    else a + "/" + b
  }

  /** A path whose final component holds a character other than '.', the
      names `splitext` can split. */
  predicate WellNamed(p: string)
  {
    HasNonDotIn(Basename(p), 0, |Basename(p)|)
  }

  /** A path is well named exactly when a character other than '.' follows
      its last '/'. */
  lemma WellNamedAt(p: string)
    ensures WellNamed(p) <==> HasNonDotIn(p, RFind(p, '/') + 1, |p|)
  {
    BasenameAt(p);
    var sep := RFind(p, '/');
    if WellNamed(p) {
      var k :| 0 <= k < |Basename(p)| && Basename(p)[k] != '.';
      assert p[sep + 1 + k] != '.';
    }
    if HasNonDotIn(p, sep + 1, |p|) {
      var i :| sep + 1 <= i < |p| && p[i] != '.';
      assert Basename(p)[i - sep - 1] != '.';
    }
  }

  /** A dot followed by characters that are neither '.' nor '/': the shape of
      every cosmetic extension and every single-part compressed extension. */
  predicate SimpleExt(e: string)
  {
    |e| >= 1 && e[0] == '.' && forall j :: 1 <= j < |e| ==> e[j] != '.' && e[j] != '/'
  }

  lemma RFindAppendAbsent(b: string, e: string, c: char)
    requires forall j :: 0 <= j < |e| ==> e[j] != c
    ensures RFind(b + e, c) == RFind(b, c)
  {
    var i := RFind(b, c);
    RFindUnique(b + e, c, i);
  }

  /** Appending a simple extension to a well-named path: `splitext` gives the
      two parts back, and the result is well named again. */
  lemma SplitExtAppend(b: string, e: string)
    requires WellNamed(b)
    requires SimpleExt(e)
    ensures SplitExt(b + e) == (b, e)
    ensures Stem(b + e) == b && Ext(b + e) == e
    ensures Basename(b + e) == Basename(b) + e
    ensures WellNamed(b + e)
  {
    var p := b + e;
    RFindAppendAbsent(b, e, '/');
    RFindUnique(p, '.', |b|);
    var sep := RFind(b, '/');
    WellNamedAt(b);
    var k :| sep + 1 <= k < |b| && b[k] != '.';
    assert p[k] != '.';
    assert ExtStart(p) == |b|;
    assert p[..|b|] == b && p[|b|..] == e;
    BasenameAppend(b, e);
    WellNamedAt(p);
  }

  /** The stem of a well-named path is well named. */
  lemma StemWellNamed(p: string)
    requires WellNamed(p)
    ensures WellNamed(Stem(p))
  {
    var sep := RFind(p, '/');
    var dot := RFind(p, '.');
    if sep < dot && HasNonDotIn(p, sep + 1, dot) {
      var s := p[..dot];
      assert ExtStart(p) == dot && Stem(p) == s;
      forall j | sep < j < |s|
        ensures s[j] != '/'
      {
        assert s[j] == p[j];
      }
      RFindUnique(s, '/', sep);
      var k :| sep + 1 <= k < dot && p[k] != '.';
      assert s[k] != '.';
      WellNamedAt(s);
    } else {
      assert ExtStart(p) == |p| && Stem(p) == p;
    }
  }

  /** A non-dot character in a range is one in any wider range. */
  lemma NonDotWiden(s: string, lo: int, hi: int, hi': int)
    requires hi <= hi'
    ensures HasNonDotIn(s, lo, hi) ==> HasNonDotIn(s, lo, hi')
  {
    if HasNonDotIn(s, lo, hi) {
      var k :| lo <= k < hi && 0 <= k < |s| && s[k] != '.';
      assert lo <= k < hi';
    }
  }

  /** A path whose final component holds no non-dot character is not split. */
  lemma SplitExtIllNamed(p: string)
    requires !WellNamed(p)
    ensures SplitExt(p) == (p, "")
  {
    WellNamedAt(p);
    var sep, dot := RFind(p, '/'), RFind(p, '.');
    NonDotWiden(p, sep + 1, dot, |p|);
    assert ExtStart(p) == |p|;
    assert p[..|p|] == p;
  }
}
