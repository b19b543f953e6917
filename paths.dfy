/**
 * The two POSIX path operations the scripts rely on: `os.path.join` of two
 * components and `os.path.splitext`.
 */
module Paths {
  import opened Strings

  /** `os.path.join(a, b)`: an absolute `b` replaces `a`; otherwise one '/' separates them. */
  function Join(a: string, b: string): (r: string)
    ensures EndsWith(r, b)
    ensures |b| > 0 && b[0] == '/' ==> r == b
    ensures !(|b| > 0 && b[0] == '/') ==> |a| <= |r| && r[..|a|] == a
    ensures !(|b| > 0 && b[0] == '/') ==> r == a + b || r == a + "/" + b
  {
    if |b| > 0 && b[0] == '/' then b
    else if a == [] || a[|a| - 1] == '/' then a + b
    else a + "/" + b
  }

  /** Joining one directory with two relative names gives one path per name. */
  lemma JoinInjective(a: string, b1: string, b2: string)
    requires !(|b1| > 0 && b1[0] == '/') && !(|b2| > 0 && b2[0] == '/')
    requires Join(a, b1) == Join(a, b2)
    ensures b1 == b2
  {
    var prefix := if a == [] || a[|a| - 1] == '/' then a else a + "/";
    assert Join(a, b1) == prefix + b1 && Join(a, b2) == prefix + b2;
    assert b1 == (prefix + b1)[|prefix|..];
    assert b2 == (prefix + b2)[|prefix|..];
  }

  /** `s.rfind(c)`: the last index holding c, or -1. */
  function RFind(s: string, c: char): (r: int)
    ensures -1 <= r < |s|
    ensures r >= 0 ==> s[r] == c
    ensures forall j :: r < j < |s| ==> s[j] != c
    decreases |s|
  {
    if s == [] then -1
    else if s[|s| - 1] == c then |s| - 1
    else RFind(s[..|s| - 1], c)
  }

  /** Some character strictly between `sep` and `dot` is not a dot. */
  predicate HasStem(p: string, sep: int, dot: int)
    requires -1 <= sep && dot <= |p|
  {
    exists j :: sep < j < dot && p[j] != '.'
  }

  /**
   * `os.path.splitext(p)`: the extension runs from the last '.' of the last
   * path component, unless everything before that dot in the component is
   * dots (so ".csv" and "..csv" have no extension).
   */
  function SplitExt(p: string): (r: (string, string))
    ensures r.0 + r.1 == p
    ensures r.1 != [] ==> r.1[0] == '.'
    ensures forall i :: 0 <= i < |r.1| ==> r.1[i] != '/'
    ensures forall i :: 1 <= i < |r.1| ==> r.1[i] != '.'
  {
    var sep := RFind(p, '/');
    var dot := RFind(p, '.');
    if dot > sep && HasStem(p, sep, dot) then (p[..dot], p[dot..]) else (p, "")
  }

  lemma {:induction false} RFindLower(p: string, c: char)
    requires c == '.' || c == '/'
    ensures RFind(Lower(p), c) == RFind(p, c)
    decreases |p|
  {
    if p != [] {
      LowerSplit(p, |p| - 1);
      RFindLower(p[..|p| - 1], c);
    }
  }

  /** Lower-casing keeps every dot where it is, so it keeps whether a component has a stem. */
  lemma HasStemLower(p: string, sep: int, dot: int)
    requires -1 <= sep && dot <= |p|
    ensures HasStem(Lower(p), sep, dot) <==> HasStem(p, sep, dot)
  {
    var q := Lower(p);
    if HasStem(p, sep, dot) {
      var j :| sep < j < dot && p[j] != '.';
      assert q[j] != '.';
    }
    if HasStem(q, sep, dot) {
      var j :| sep < j < dot && q[j] != '.';
      assert p[j] != '.';
    }
  }

  /** Lower-casing a path and splitting it commute: case never moves a '.' or a '/'. */
  lemma SplitExtLower(p: string)
    ensures SplitExt(Lower(p)) == (Lower(SplitExt(p).0), Lower(SplitExt(p).1))
  {
    var q := Lower(p);
    RFindLower(p, '.');
    RFindLower(p, '/');
    var sep, dot := RFind(p, '/'), RFind(p, '.');
    assert RFind(q, '/') == sep && RFind(q, '.') == dot;
    if dot > sep && HasStem(p, sep, dot) {
      HasStemLower(p, sep, dot);
      assert SplitExt(p) == (p[..dot], p[dot..]);
      assert SplitExt(q) == (q[..dot], q[dot..]);
      LowerSplit(p, dot);
    } else {
      if dot > sep {
        HasStemLower(p, sep, dot);
      }
      assert SplitExt(p) == (p, "");
      assert SplitExt(q) == (q, "");
      assert Lower("") == "";
    }
  }

  /**
   * When p ends in a dot followed by n - 1 characters that are neither '.'
   * nor '/', that dot starts the extension exactly when the component has a
   * non-dot character before it.
   */
  lemma SplitExtOfSuffix(p: string, n: nat)
    requires 1 <= n <= |p| && p[|p| - n] == '.'
    requires forall i :: |p| - n < i < |p| ==> p[i] != '.' && p[i] != '/'
    ensures RFind(p, '/') < |p| - n
    ensures SplitExt(p) == if HasStem(p, RFind(p, '/'), |p| - n) then (p[..|p| - n], p[|p| - n..]) else (p, "")
  {
    assert RFind(p, '.') == |p| - n;
  }

  /** The extension is the tail of the path. */
  lemma ExtensionIsTail(p: string)
    ensures SplitExt(p).1 == p[|p| - |SplitExt(p).1|..]
  {
    var r := SplitExt(p);
    assert p == r.0 + r.1;
    assert p[|r.0|..] == r.1;
  }

  /** Such a suffix, with a non-dot character before it in the component, is the extension. */
  lemma SplitExtIsSuffix(p: string, n: nat)
    requires 1 <= n <= |p| && p[|p| - n] == '.'
    requires forall i :: |p| - n < i < |p| ==> p[i] != '.' && p[i] != '/'
    requires HasStem(p, RFind(p, '/'), |p| - n)
    ensures SplitExt(p).1 == p[|p| - n..]
  {
    SplitExtOfSuffix(p, n);
  }
}
