/** POSIX path handling as the jobs use it: os.path.basename, dirname,
    splitext and join, each following posixpath's rules. */
module Paths {

  /** Index of the last occurrence of c in s, or -1 (str.rfind). */
  function LastIndex(s: string, c: char): (i: int)
    ensures -1 <= i < |s|
    ensures i >= 0 ==> s[i] == c
    ensures forall k :: i < k < |s| ==> s[k] != c
  {
    if s == [] then -1
    else if s[|s| - 1] == c then |s| - 1
    else LastIndex(s[..|s| - 1], c)
  }

  /** LastIndex is pinned down by its contract: the one index holding c with no c after it. */
  lemma LastIndexIs(s: string, c: char, i: int)
    requires -1 <= i < |s|
    requires i >= 0 ==> s[i] == c
    requires forall k :: i < k < |s| ==> s[k] != c
    ensures LastIndex(s, c) == i
  {
  }

  /** os.path.basename: everything after the last '/'. */
  function Basename(p: string): (b: string)
    ensures '/' !in b
    ensures |b| <= |p| && p[|p| - |b|..] == b
  {
    p[LastIndex(p, '/') + 1..]
  }

  /** The basename is the whole path or starts right after a '/'; with
      '/' !in b and b ending p, this pins it down. */
  lemma BasenameAfterSlash(p: string)
    ensures var b := Basename(p);
            |b| == |p| || p[|p| - |b| - 1] == '/'
  {
  }

  predicate AllSlashes(s: string) {
    forall k :: 0 <= k < |s| ==> s[k] == '/'
  }

  /** str.rstrip('/') */
  function StripTrailingSlashes(s: string): (r: string)
    ensures r <= s
    ensures r == [] || r[|r| - 1] != '/'
    ensures AllSlashes(s[|r|..])
  {
    if s == [] || s[|s| - 1] != '/' then s
    else StripTrailingSlashes(s[..|s| - 1])
  }

  /** os.path.dirname: the part up to the last '/', with trailing slashes
      removed unless it consists of slashes only. */
  function Dirname(p: string): (d: string)
    ensures d <= p
    ensures '/' !in p ==> d == ""
  {
    var head := p[..LastIndex(p, '/') + 1];
    if head != [] && !AllSlashes(head) then StripTrailingSlashes(head) else head
  }

  /** Dirname gives the one directory IsDirname describes (see DirnameUnique). */
  lemma DirnameSpec(p: string)
    ensures IsDirname(p, Dirname(p))
  {
    var head := p[..LastIndex(p, '/') + 1];
    var b := Basename(p);
    var d := Dirname(p);
    assert |head| + |b| == |p|;
    if head != [] && !AllSlashes(head) {
      StrippedKeepsContent(head);
      assert d == StripTrailingSlashes(head);
      assert p[|d|..|p| - |b|] == head[|d|..];
    } else {
      assert d == head;
    }
  }

  /** What separates a directory from the basename of p: d is a prefix of p
      followed only by slashes up to the basename; all of them when d is the
      root (or empty), while any other d does not end in a slash. */
  predicate IsDirname(p: string, d: string) {
    d <= p &&
    |d| + |Basename(p)| <= |p| && AllSlashes(p[|d|..|p| - |Basename(p)|]) &&
    (AllSlashes(d) ==> |d| + |Basename(p)| == |p|) &&
    (!AllSlashes(d) ==> d[|d| - 1] != '/')
  }

  /** Stripping trailing slashes off something that is not only slashes
      leaves something that is not only slashes. */
  lemma StrippedKeepsContent(s: string)
    requires !AllSlashes(s)
    ensures !AllSlashes(StripTrailingSlashes(s))
  {
  }

  /** IsDirname admits one directory per path, so it specifies Dirname completely. */
  lemma DirnameUnique(p: string, d1: string, d2: string)
    requires IsDirname(p, d1) && IsDirname(p, d2)
    ensures d1 == d2
  {
    DirnameNotLonger(p, d1, d2);
    DirnameNotLonger(p, d2, d1);
  }

  lemma DirnameNotLonger(p: string, d1: string, d2: string)
    requires IsDirname(p, d1) && IsDirname(p, d2)
    ensures |d2| <= |d1|
  {
    var end := |p| - |Basename(p)|;
    assert forall k :: 0 <= k < |d1| ==> d1[k] == p[k];
    assert forall k :: 0 <= k < |d2| ==> d2[k] == p[k];
    assert forall k :: |d1| <= k < end ==> p[k] == p[|d1|..end][k - |d1|];
  }

  /** The directories of a few typical paths. */
  lemma DirnameExamples()
    ensures Dirname("a/b") == "a"
    ensures Dirname("a//b") == "a"
    ensures Dirname("/a") == "/"
    ensures Dirname("b") == ""
  {
    var p := "a/b";
    LastIndexIs(p, '/', 1);
    assert p[..2] == "a/" && "a/"[0] != '/' && "a/"[..1] == "a";
    p := "a//b";
    LastIndexIs(p, '/', 2);
    assert p[..3] == "a//" && "a//"[0] != '/' && "a//"[..2] == "a/" && "a/"[..1] == "a";
    p := "/a";
    LastIndexIs(p, '/', 0);
    assert p[..1] == "/";
  }

  /** Some character of s[lo..hi] is not a dot. */
  predicate HasNonDot(s: string, lo: int, hi: int)
    requires 0 <= lo <= hi <= |s|
  {
    exists k :: lo <= k < hi && s[k] != '.'
  }

  /** os.path.splitext: the extension starts at the last dot of the last
      component, provided something other than dots precedes it there. */
  function SplitExt(p: string): (r: (string, string))
    ensures r.0 + r.1 == p
    ensures r.1 == [] || (r.1[0] == '.' && forall k :: 1 <= k < |r.1| ==> r.1[k] != '.' && r.1[k] != '/')
  {
    var sep := LastIndex(p, '/');
    var dot := LastIndex(p, '.');
    if dot > sep && HasNonDot(p, sep + 1, dot) then (p[..dot], p[dot..]) else (p, [])
  }

  /** There is an extension exactly when the last component holds a dot
      with something other than a dot before it in that component. */
  lemma SplitExtWhen(p: string)
    ensures SplitExt(p).1 != [] <==> exists j, k :: LastIndex(p, '/') < j < k < |p| && p[j] != '.' && p[k] == '.'
  {
    var sep := LastIndex(p, '/');
    var dot := LastIndex(p, '.');
    if SplitExt(p).1 != [] {
      var j :| sep + 1 <= j < dot && p[j] != '.';
      assert sep < j < dot < |p| && p[j] != '.' && p[dot] == '.';
    }
    if exists j, k :: sep < j < k < |p| && p[j] != '.' && p[k] == '.' {
      var j, k :| sep < j < k < |p| && p[j] != '.' && p[k] == '.';
      assert j < dot;
      assert HasNonDot(p, sep + 1, dot);
    }
  }

  /** A file name with several dots keeps all but the last; a leading dot
      names a hidden file, not an extension; dots in directories do not count. */
  lemma SplitExtExamples()
    ensures SplitExt("d/a.b.PNG") == ("d/a.b", ".PNG")
    ensures SplitExt("d/.rc") == ("d/.rc", "")
    ensures SplitExt("a.d/b") == ("a.d/b", "")
  {
    var p := "d/a.b.PNG";
    LastIndexIs(p, '/', 1);
    LastIndexIs(p, '.', 5);
    assert HasNonDot(p, 2, 5) by { assert p[2] != '.'; }
    assert p[..5] == "d/a.b" && p[5..] == ".PNG";
    LastIndexIs("d/.rc", '/', 1);
    LastIndexIs("d/.rc", '.', 2);
    LastIndexIs("a.d/b", '/', 3);
    LastIndexIs("a.d/b", '.', 1);
  }

  /** os.path.splitext(os.path.basename(p))[0]: the file name without its extension. */
  function Stem(p: string): string {
    SplitExt(Basename(p)).0
  }

  /** os.path.splitext(p)[1]: the extension with its dot, or "". */
  function Extension(p: string): string {
    SplitExt(p).1
  }

  /** The stem is the file name without a directory, and the file name is
      the stem followed by its extension. */
  lemma StemParts(p: string)
    ensures '/' !in Stem(p)
    ensures Stem(p) + Extension(Basename(p)) == Basename(p)
  {
  }

  /** The extension ends the path and is a dot followed by neither dots nor slashes. */
  lemma ExtensionShape(p: string)
    ensures var e := Extension(p);
            |e| <= |p| && p[|p| - |e|..] == e &&
            (e == [] || (e[0] == '.' && '.' !in e[1..] && '/' !in e))
  {
    var e := Extension(p);
    assert p == SplitExt(p).0 + e;
  }

  /** os.path.join(a, b) for two components. */
  function Join(a: string, b: string): string {
    if |b| > 0 && b[0] == '/' then b
    else if a == [] || a[|a| - 1] == '/' then a + b
    else a + "/" + b
  }

  /** The joined path ends with the second part; a relative second part
      goes after the first, behind exactly one '/' when the first is not
      empty; an absolute one replaces it. */
  lemma JoinParts(a: string, b: string)
    ensures var r := Join(a, b);
            |b| <= |r| && r[|r| - |b|..] == b &&
            ((b == [] || b[0] != '/') ==> |a| <= |r| && r[..|a|] == a) &&
            ((b == [] || b[0] != '/') && a != [] ==> |b| < |r| <= |a| + 1 + |b| && r[|r| - |b| - 1] == '/') &&
            (|b| > 0 && b[0] == '/' ==> r == b)
  {
  }

  /** A file's stem followed by text that does not start with '/' is a relative name. */
  lemma StemNameRelative(file: string, rest: string)
    requires rest != [] && rest[0] != '/'
    ensures Stem(file) + rest != [] && (Stem(file) + rest)[0] != '/'
  {
    StemParts(file);
    if Stem(file) != [] {
      assert (Stem(file) + rest)[0] == Stem(file)[0];
    }
  }

  /** Appending keeps the first character. */
  lemma StartKept(x: string, rest: string)
    requires x != []
    ensures (x + rest)[0] == x[0]
  {
  }

  /** Two relative names joined onto the same directory give the same path
      only when the names are equal. */
  lemma JoinCancel(a: string, b1: string, b2: string)
    requires b1 != [] && b1[0] != '/' && b2 != [] && b2[0] != '/'
    requires Join(a, b1) == Join(a, b2)
    ensures b1 == b2
  {
    var r := Join(a, b1);
    if a == [] || a[|a| - 1] == '/' {
      assert b1 == r[|a|..] == b2;
    } else {
      assert b1 == r[|a| + 1..] == b2;
    }
  }

  lemma {:induction false} LastIndexSkips(a: string, b: string, c: char)
    requires c !in b
    ensures LastIndex(a + b, c) == LastIndex(a, c)
    decreases |b|
  {
    if b != [] {
      var b' := b[..|b| - 1];
      assert (a + b)[..|a + b| - 1] == a + b';
      LastIndexSkips(a, b', c);
    } else {
      assert a + b == a;
    }
  }

  /** A file name joined onto a directory is the basename of the result. */
  lemma BasenameOfJoin(dir: string, name: string)
    requires '/' !in name
    ensures Basename(Join(dir, name)) == name
  {
    if dir == [] || dir[|dir| - 1] == '/' {
      LastIndexSkips(dir, name, '/');
    } else {
      LastIndexSkips(dir + "/", name, '/');
      assert dir + "/" + name == (dir + "/") + name;
    }
  }
}
