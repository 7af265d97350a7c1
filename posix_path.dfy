/** The parts of Python's `posixpath` (`os.path` on POSIX) and of
    `pathlib.PurePosixPath` that the bot uses to derive file names. Paths are
    plain strings; nothing here touches a file system. */
module PosixPath {
  import opened Strings

  predicate AllSlashes(s: string) {
    forall i :: 0 <= i < |s| ==> s[i] == '/'
  }

  /** `os.path.basename(p)`: the text after the last `/`. */
  function Basename(p: string): (r: string)
    ensures EndsWith(p, r) && '/' !in r
    ensures |r| < |p| ==> p[|p| - |r| - 1] == '/'
  {
    AfterLast(p, '/')
  }

  /** `os.path.dirname(p)`: the text up to the last `/`, without its trailing
      slashes unless it consists of slashes only. */
  function Dirname(p: string): (r: string)
    ensures StartsWith(p, r)
    ensures '/' in p <==> r != []
    ensures r != [] && !AllSlashes(r) ==> r[|r| - 1] != '/'
  {
    var head := p[..|p| - |Basename(p)|];
    if head != [] && !AllSlashes(head) then TrimEnd(head, {'/'}) else head
  }

  /** `os.path.join(a, b)` for two components. */
  function Join(a: string, b: string): string {
    if StartsWith(b, "/") then b
    else if a == [] || EndsWith(a, "/") then a + b
    else a + "/" + b
  }

  /** `os.path.splitext(p)`: the extension is the last dot and what follows it
      in the final component, unless that component has only dots before it. */
  function SplitExt(p: string): (r: (string, string))
    ensures r.0 + r.1 == p
    ensures r.1 != [] ==> r.1[0] == '.' && '.' !in r.1[1..] && '/' !in r.1
  {
    var b := Basename(p);
    var n := |AfterLast(b, '.')|;
    if n < |b| && !AllDots(b[..|b| - n - 1]) then
      LastDotOfName(p);
      CutAt(p, |p| - n - 1)
    else
      (p, [])
  }

  /** The split at the last dot of the final component. */
  function CutAt(p: string, cut: int): (r: (string, string))
    requires 0 <= cut < |p|
    requires p[cut] == '.' && '.' !in p[cut + 1..] && '/' !in p[cut..]
    ensures r.0 + r.1 == p
    ensures r.1 != [] && r.1[0] == '.' && '.' !in r.1[1..] && '/' !in r.1
  {
    assert p[cut..][1..] == p[cut + 1..];
    (p[..cut], p[cut..])
  }

  /** A leading part made of dots only (or nothing) marks a hidden name. */
  predicate AllDots(s: string) {
    forall k :: 0 <= k < |s| ==> s[k] == '.'
  }

  /** The last dot of the final component, and what follows it in `p`. */
  lemma LastDotOfName(p: string)
    requires |AfterLast(Basename(p), '.')| < |Basename(p)|
    ensures 0 <= |p| - |AfterLast(Basename(p), '.')| - 1 < |p|
    ensures var cut := |p| - |AfterLast(Basename(p), '.')| - 1;
      p[cut] == '.' && '.' !in p[cut + 1..] && '/' !in p[cut..]
  {
    var b := Basename(p);
    var n := TrailOther(b, '.');
    assert |AfterLast(b, '.')| == n;
    DotInSuffix(p, b, n);
  }

  /** A position of the suffix `b` of `p`, seen from `p`. */
  lemma DotInSuffix(p: string, b: string, n: nat)
    requires EndsWith(p, b) && '/' !in b && n < |b| && b[|b| - n - 1] == '.'
    requires forall i :: |b| - n <= i < |b| ==> b[i] != '.'
    ensures 0 <= |p| - n - 1 < |p|
    ensures var cut := |p| - n - 1;
      p[cut] == '.' && '.' !in p[cut + 1..] && '/' !in p[cut..]
  {
    var cut := |p| - n - 1;
    assert p[cut..] == b[|b| - n - 1..];
    assert p[cut + 1..] == b[|b| - n..];
  }

  /** `PurePosixPath(p).name`: the last component once empty and `.`
      components are dropped; empty when nothing is left. */
  function PathName(p: string): (r: string)
    decreases |p|
    ensures '/' !in r && r != "."
  {
    var t := TrimEnd(p, {'/'});
    if t == [] then []
    else
      var last := AfterLast(t, '/');
      if last == "." then PathName(t[..|t| - 1]) else last
  }

  /** `PurePosixPath(..).suffix` of a final component `name`: from its last
      dot, provided the dot is neither the first nor the last character. */
  function Suffix(name: string): (r: string)
    ensures r == [] || (|r| >= 2 && r[0] == '.' && '.' !in r[1..] && EndsWith(name, r) && |r| < |name|)
  {
    var tail := AfterLast(name, '.');
    if |tail| < |name| && tail != [] && |name| - |tail| - 1 > 0 then "." + tail else []
  }

  /** Splitting off the last component and joining it back yields a path with
      that basename. */
  lemma {:induction false} BasenameJoin(d: string, n: string)
    requires '/' !in n && n != []
    ensures Basename(Join(d, n)) == n
  {
    var j := Join(d, n);
    assert n[0] in n;
    assert !StartsWith(n, "/");
    assert j == (if d == [] || EndsWith(d, "/") then d else d + "/") + n;
    AfterLastOfTail(if d == [] || EndsWith(d, "/") then d else d + "/", n);
  }

  /** A dot-free stem followed by one extension splits back into the two. */
  lemma SplitExtOfStem(stem: string, e: string)
    requires stem != [] && '.' !in stem && '/' !in stem
    requires e != [] && e[0] == '.' && '.' !in e[1..] && '/' !in e
    ensures SplitExt(stem + e) == (stem, e)
  {
    var p := stem + e;
    BasenameOfName(p);
    AfterLastOfExt(stem, e);
    assert p[..|stem|] == stem;
    assert !AllDots(stem) by { assert stem[0] != '.'; }
    assert p[|stem|..] == e;
  }

  lemma BasenameOfName(p: string)
    requires '/' !in p
    ensures Basename(p) == p
  {
    assert [] + p == p;
    AfterLastOfTail([], p);
  }

  lemma AfterLastOfExt(stem: string, e: string)
    requires e != [] && e[0] == '.' && '.' !in e[1..]
    ensures AfterLast(stem + e, '.') == e[1..]
  {
    var p := stem + e;
    var k := |e| - 1;
    forall i | |p| - k <= i < |p| ensures p[i] != '.' {
      assert p[i] == e[1..][i - |stem| - 1];
    }
    assert p[|p| - k - 1] == e[0];
    TrailOtherIs(p, '.', k);
    assert p[|p| - k..] == e[1..];
  }

  lemma AfterLastOfTail(x: string, n: string)
    requires '/' !in n
    requires x == [] || x[|x| - 1] == '/'
    ensures AfterLast(x + n, '/') == n
  {
    var s := x + n;
    forall i | |s| - |n| <= i < |s| ensures s[i] != '/' {
      assert s[i] == n[i - |x|];
    }
    TrailOtherIs(s, '/', |n|);
    assert s[|s| - |n|..] == n;
  }

  /** Joining a directory without a trailing slash to a plain name and taking
      the dirname gives the directory back. */
  lemma DirnameJoin(d: string, n: string)
    requires d != [] && d[|d| - 1] != '/'
    requires '/' !in n && n != []
    ensures Dirname(Join(d, n)) == d
  {
    var j := Join(d, n);
    assert n[0] in n;
    assert d[|d| - 1..] == [d[|d| - 1]];
    assert j == d + "/" + n;
    BasenameJoin(d, n);
    assert j[..|j| - |n|] == d + "/";
    assert (d + "/")[|d| - 1] == d[|d| - 1];
    assert !AllSlashes(d + "/");
    assert TrimEnd(d + "/", {'/'}) == TrimEnd(d, {'/'}) == d;
  }
}
