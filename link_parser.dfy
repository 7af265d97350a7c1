/** Link extraction and classification (utils/link_parser.py): scanning text
    for `http(s)://` URLs, sorting a URL into one of five kinds, and collecting
    the links found in the text files of an extracted archive. */
module LinkParser {
  import opened Wrappers
  import opened Strings
  import opened PosixPath

  /** The five labels `classify_link` returns. */
  datatype Category = Direct | M3u8 | Gdrive | Telegram | Unknown

  const VideoExt: set<string> := {".mp4", ".mkv", ".mov", ".avi", ".webm", ".ts"}
  const ArchiveExt: set<string> := {".zip", ".rar", ".7z", ".tar", ".gz", ".tgz", ".tar.gz", ".tar.bz2", ".tbz2", ".bz2", ".xz"}
  const AudioExt: set<string> := {".mp3", ".m4a", ".aac", ".ogg", ".opus", ".flac", ".wav"}
  const ApkExt: set<string> := {".apk", ".xapk", ".apks"}
  const FileExt: set<string> := VideoExt + ArchiveExt + AudioExt + ApkExt

  /** The characters `strip(".,)")` removes from both ends of a match. */
  const TrailPunct: set<char> := {'.', ',', ')'}

  // ---------------------------------------------------------------------------
  // The scan `URL_REGEX.finditer(text)` with `https?://[^\s]+`, ignoring case.

  /** Length of the `http://` or `https://` that `u` starts with, ignoring
      ASCII case; 0 when it starts with neither. */
  function SchemeLen(u: string): (n: nat)
    ensures n == 0 || n == 7 || n == 8
    ensures n == 8 <==> StartsWithCI(u, "https://")
    ensures n == 7 <==> !StartsWithCI(u, "https://") && StartsWithCI(u, "http://")
  {
    if StartsWithCI(u, "https://") then 8 else if StartsWithCI(u, "http://") then 7 else 0
  }

  /** Length of the run of non-whitespace characters that `u` starts with. */
  function RunLen(u: string): (n: nat)
    ensures n <= |u|
    ensures forall i :: 0 <= i < n ==> !IsSpace(u[i])
    ensures n < |u| ==> IsSpace(u[n])
  {
    if u == [] || IsSpace(u[0]) then 0 else 1 + RunLen(u[1..])
  }

  /** Length of the regular-expression match that starts at the beginning of
      `u` (greedy, so it runs up to the next whitespace), 0 when there is none. */
  function MatchLen(u: string): (n: nat)
    ensures n <= |u|
  {
    var k := SchemeLen(u);
    if k > 0 && RunLen(u[k..]) > 0 then k + RunLen(u[k..]) else 0
  }

  /** `m.group(1).strip().strip(".,)")`. */
  function Clean(m: string): string {
    StripChars(Strip(m), TrailPunct)
  }

  /** The cleaned matches of the scan, left to right; after a match the scan
      resumes where the match ended, otherwise one character further. */
  function Scan(u: string): seq<string>
    decreases |u|
  {
    if u == [] then []
    else
      var n := MatchLen(u);
      if n > 0 then [Clean(u[..n])] + Scan(u[n..]) else Scan(u[1..])
  }

  /** `find_links_in_text(text)`. */
  function FindLinksInText(text: string): seq<string> {
    Scan(text)
  }

  /** What every returned link looks like. */
  predicate LinkShaped(l: string) {
    && (StartsWithCI(l, "http://") || StartsWithCI(l, "https://"))
    && NoSpace(l)
    && l != []
    && l[|l| - 1] !in TrailPunct
  }

  /** The scheme, in the case-insensitive form the scan accepts. */
  function Scheme(k: nat): string {
    if k == 8 then "https://" else "http://"
  }

  lemma StartsWithCIChar(s: string, p: string, i: nat)
    requires StartsWithCI(s, p) && i < |p|
    ensures Lower(s[i]) == p[i]
  {
    assert LowerStr(s[..|p|])[i] == Lower(s[..|p|][i]);
  }

  lemma SchemeChars(m: string, k: nat)
    requires k == SchemeLen(m) && k > 0
    ensures StartsWithCI(m, Scheme(k)) && |m| >= k
    ensures m[0] == 'h' || m[0] == 'H'
    ensures m[k - 1] == '/'
    ensures forall i :: 0 <= i < k ==> !IsSpace(m[i])
  {
    var p := Scheme(k);
    StartsWithCIChar(m, p, 0);
    StartsWithCIChar(m, p, k - 1);
    forall i | 0 <= i < k ensures !IsSpace(m[i]) {
      StartsWithCIChar(m, p, i);
    }
  }

  lemma CleanShaped(m: string, k: nat)
    requires k == SchemeLen(m) && k > 0 && |m| > k
    requires NoSpace(m)
    ensures LinkShaped(Clean(m))
  {
    SchemeChars(m, k);
    CleanOfScheme(m);
    TrimmedShaped(m, k);
  }

  lemma TrimmedShaped(m: string, k: nat)
    requires (k == 7 || k == 8) && |m| > k && StartsWithCI(m, Scheme(k))
    requires m[k - 1] == '/' && NoSpace(m)
    ensures LinkShaped(TrimEnd(m, TrailPunct))
  {
    var r := TrimEnd(m, TrailPunct);
    TrimEndKeeps(m, TrailPunct, k);
    SamePrefixCI(m, r, Scheme(k));
    ShapedParts(r, k);
  }

  /** A match that starts with a letter and has no whitespace loses only
      trailing punctuation when cleaned. */
  lemma CleanOfScheme(m: string)
    requires m != [] && (m[0] == 'h' || m[0] == 'H') && NoSpace(m)
    ensures Clean(m) == TrimEnd(m, TrailPunct)
  {
    StripNoSpaceEnds(m);
    assert LeadCount(m, TrailPunct) == 0;
  }

  lemma ShapedParts(r: string, k: nat)
    requires (k == 7 || k == 8) && |r| >= k && StartsWithCI(r, Scheme(k))
    requires NoSpace(r) && r[|r| - 1] !in TrailPunct
    ensures LinkShaped(r)
  {
  }

  lemma SamePrefixCI(m: string, r: string, p: string)
    requires StartsWithCI(m, p) && |p| <= |r| <= |m| && r == m[..|r|]
    ensures StartsWithCI(r, p)
  {
    assert r[..|p|] == m[..|p|];
  }

  /** Trimming the end of `m` keeps a prefix that reaches at least up to
      the last character outside `cs` before position `k`, has no space
      when `m` has none, and ends outside `cs`. */
  lemma TrimEndKeeps(m: string, cs: set<char>, k: nat)
    requires 0 < k <= |m| && m[k - 1] !in cs
    requires NoSpace(m)
    ensures |TrimEnd(m, cs)| >= k && TrimEnd(m, cs) == m[..|TrimEnd(m, cs)|]
    ensures NoSpace(TrimEnd(m, cs))
    ensures TrimEnd(m, cs)[|TrimEnd(m, cs)| - 1] !in cs
  {
    var r := TrimEnd(m, cs);
    assert forall i :: 0 <= i < |r| ==> r[i] == m[i];
  }

  /** Every link starts with `http://` or `https://` in any ASCII case,
      contains no whitespace and does not end with `.`, `,` or `)`. */
  lemma {:induction false} LinksShaped(text: string)
    ensures forall l :: l in FindLinksInText(text) ==> LinkShaped(l)
    decreases |text|
  {
    if text != [] {
      var n := MatchLen(text);
      if n > 0 {
        var k := SchemeLen(text);
        var m := text[..n];
        SchemeChars(text, k);
        assert m[..k] == text[..k];
        assert SchemeLen(m) == k;
        assert NoSpace(m) by {
          forall i | 0 <= i < n ensures !IsSpace(m[i]) {
            if i >= k { assert m[i] == text[k..][i - k]; }
          }
        }
        CleanShaped(m, k);
        LinksShaped(text[n..]);
      } else {
        LinksShaped(text[1..]);
      }
    }
  }

  lemma StartsWithCIBeforeSpace(x: string, c: char, y: string, p: string)
    requires IsSpace(c) && NoSpace(p)
    ensures StartsWithCI(x + [c] + y, p) <==> StartsWithCI(x, p)
  {
    var s := x + [c] + y;
    if |p| <= |x| {
      assert s[..|p|] == x[..|p|];
    } else if |p| <= |s| {
      assert LowerStr(s[..|p|])[|x|] == Lower(c) == c;
      assert p[|x|] != c;
    }
  }

  lemma {:induction false} RunLenBeforeSpace(x: string, c: char, y: string)
    requires IsSpace(c)
    ensures RunLen(x + [c] + y) == RunLen(x)
    decreases |x|
  {
    if x != [] {
      assert (x + [c] + y)[1..] == x[1..] + [c] + y;
      RunLenBeforeSpace(x[1..], c, y);
    }
  }

  /** A match never reaches past a whitespace character. */
  lemma MatchLenBeforeSpace(x: string, c: char, y: string)
    requires IsSpace(c) && x != []
    ensures MatchLen(x + [c] + y) == MatchLen(x)
  {
    SchemeLenBeforeSpace(x, c, y);
    var k := SchemeLen(x);
    if k > 0 {
      assert (x + [c] + y)[k..] == x[k..] + [c] + y;
      RunLenBeforeSpace(x[k..], c, y);
    }
  }

  /** The scheme of a text is decided before its first whitespace character. */
  lemma SchemeLenBeforeSpace(x: string, c: char, y: string)
    requires IsSpace(c)
    ensures SchemeLen(x + [c] + y) == SchemeLen(x)
    ensures SchemeLen(x) <= |x|
  {
    StartsWithCIBeforeSpace(x, c, y, "https://");
    StartsWithCIBeforeSpace(x, c, y, "http://");
  }

  /** The scan of two texts joined by a whitespace character is the scan of
      the first followed by the scan of the second: links come out in text
      order, one per match, and a repeated URL is reported every time. */
  lemma {:induction false} ScanSplit(a: string, c: char, b: string)
    requires IsSpace(c)
    ensures FindLinksInText(a + [c] + b) == FindLinksInText(a) + FindLinksInText(b)
    decreases |a|
  {
    if a == [] {
      assert a + [c] + b == [c] + b;
      ScanSpaceFirst(c, b);
    } else if MatchLen(a) > 0 {
      var n := MatchLen(a);
      ScanMatchStep(a, c, b);
      ScanSplit(a[n..], c, b);
    } else {
      ScanSkipStep(a, c, b);
      ScanSplit(a[1..], c, b);
    }
  }

  /** No match starts at a whitespace character. */
  lemma ScanSpaceFirst(c: char, b: string)
    requires IsSpace(c)
    ensures Scan([c] + b) == Scan(b)
  {
    var s := [c] + b;
    if SchemeLen(s) > 0 {
      SchemeChars(s, SchemeLen(s));
    }
    assert s[1..] == b;
  }

  /** A match inside `a` is the same match in `a + [c] + b`. */
  lemma ScanMatchStep(a: string, c: char, b: string)
    requires IsSpace(c) && a != [] && MatchLen(a) > 0
    ensures Scan(a + [c] + b) == [Clean(a[..MatchLen(a)])] + Scan(a[MatchLen(a)..] + [c] + b)
  {
    var s := a + [c] + b;
    var n := MatchLen(a);
    MatchLenBeforeSpace(a, c, b);
    assert s[..n] == a[..n];
    assert s[n..] == a[n..] + [c] + b;
  }

  /** Without a match at the start of `a`, the scan moves one character on. */
  lemma ScanSkipStep(a: string, c: char, b: string)
    requires IsSpace(c) && a != [] && MatchLen(a) == 0
    ensures Scan(a + [c] + b) == Scan(a[1..] + [c] + b)
  {
    var s := a + [c] + b;
    MatchLenBeforeSpace(a, c, b);
    assert s[1..] == a[1..] + [c] + b;
  }

  /** Unlike the folder scan, the text scan keeps duplicates. */
  lemma ScanKeepsDuplicates(t: string)
    ensures FindLinksInText(t + " " + t) == FindLinksInText(t) + FindLinksInText(t)
  {
    assert t + " " + t == t + [' '] + t;
    ScanSplit(t, ' ', t);
  }

  // ---------------------------------------------------------------------------
  // `classify_link`.

  /** `url.strip().lower()`. */
  function Normalized(url: string): string {
    LowerStr(Strip(url))
  }

  /** The normalized URL before its first `?`, and that before its first `#`. */
  function Base(url: string): string {
    BeforeFirst(BeforeFirst(Normalized(url), '?'), '#')
  }

  predicate IsGdrive(url: string) {
    Contains(Normalized(url), "drive.google.com")
  }

  predicate IsTelegram(url: string) {
    Contains(Normalized(url), "t.me/") || Contains(Normalized(url), "telegram.me/")
  }

  predicate HasFileExt(base: string) {
    exists e :: e in FileExt && EndsWith(base, e)
  }

  /** `classify_link(url)`: the tests in their fixed order of precedence. */
  function Classify(url: string): Category {
    if IsGdrive(url) then Gdrive
    else if IsTelegram(url) then Telegram
    else if EndsWith(Base(url), ".m3u8") then M3u8
    else if HasFileExt(Base(url)) then Direct
    else Unknown
  }

  /** The order of precedence: a Google Drive marker wins over everything, a
      Telegram marker over any extension, `.m3u8` over the file extensions,
      and a file extension over `unknown`. */
  lemma ClassifySpec(url: string)
    ensures Classify(url) == Gdrive <==> IsGdrive(url)
    ensures Classify(url) == Telegram <==> !IsGdrive(url) && IsTelegram(url)
    ensures Classify(url) == M3u8 <==> !IsGdrive(url) && !IsTelegram(url) && EndsWith(Base(url), ".m3u8")
    ensures Classify(url) == Direct <==>
      !IsGdrive(url) && !IsTelegram(url) && !EndsWith(Base(url), ".m3u8") && HasFileExt(Base(url))
    ensures Classify(url) == Unknown <==>
      !IsGdrive(url) && !IsTelegram(url) && !EndsWith(Base(url), ".m3u8") && !HasFileExt(Base(url))
  {
  }

  /** A URL without query or fragment, no host marker and a name ending in
      one of the file extensions is `direct`, also with a query or fragment
      appended. */
  lemma DirectWithQuery(u: string, e: string, c: char, q: string)
    requires e in FileExt && EndsWith(LowerStr(u), e)
    requires c == '?' || c == '#'
    requires NoSpace(u) && NoSpace(q)
    requires '?' !in u && '#' !in u
    requires NoMarker(LowerStr(u)) && NoMarker(LowerStr(q))
    ensures Classify(u + [c] + q) == Direct
  {
    ClassifyIgnoresQuery(u, c, q);
    BaseQuery(u, c, q);
    NormalizedQuery(u, c, q);
    FileExtNotM3u8(LowerStr(u), e);
  }

  /** No name ending in a file extension ends in `.m3u8`. */
  lemma FileExtNotM3u8(b: string, e: string)
    requires e in FileExt && EndsWith(b, e)
    ensures HasFileExt(b) && !EndsWith(b, ".m3u8")
  {
    LastNot8(e);
    assert b[|b| - 1] == e[|e| - 1];
  }

  lemma LastNot8(e: string)
    requires e in FileExt
    ensures e != [] && e[|e| - 1] != '8'
  {
    if e in VideoExt {
      VideoLastNot8(e);
    } else if e in ArchiveExt {
      ArchiveLastNot8(e);
    } else if e in AudioExt {
      AudioLastNot8(e);
    } else {
      assert e == ".apk" || e == ".xapk" || e == ".apks";
    }
  }

  lemma VideoLastNot8(e: string)
    requires e in VideoExt
    ensures e != [] && e[|e| - 1] != '8'
  {
    assert e == ".mp4" || e == ".mkv" || e == ".mov" || e == ".avi" || e == ".webm" || e == ".ts";
  }

  lemma ArchiveLastNot8(e: string)
    requires e in ArchiveExt
    ensures e != [] && e[|e| - 1] != '8'
  {
    assert e == ".zip" || e == ".rar" || e == ".7z" || e == ".tar" || e == ".gz" || e == ".tgz"
      || e == ".tar.gz" || e == ".tar.bz2" || e == ".tbz2" || e == ".bz2" || e == ".xz";
  }

  lemma AudioLastNot8(e: string)
    requires e in AudioExt
    ensures e != [] && e[|e| - 1] != '8'
  {
    assert e == ".mp3" || e == ".m4a" || e == ".aac" || e == ".ogg" || e == ".opus" || e == ".flac" || e == ".wav";
  }

  lemma LowerStrConcat(a: string, b: string)
    ensures LowerStr(a + b) == LowerStr(a) + LowerStr(b)
  {
  }

  lemma LowerStrKeeps(a: string, c: char)
    requires c !in a && !('A' <= c <= 'Z') && !('a' <= c <= 'z')
    ensures c !in LowerStr(a)
  {
    forall i | 0 <= i < |a| ensures LowerStr(a)[i] != c {
      assert a[i] != c;
    }
  }

  /** An occurrence of `p` in `a + [c] + b` that cannot cover `c` lies in
      `a` or in `b`. */
  lemma {:induction false} ContainsAcross(a: string, c: char, b: string, p: string)
    requires c !in p
    ensures Contains(a + [c] + b, p) ==> Contains(a, p) || Contains(b, p)
    decreases |a|
  {
    var s := a + [c] + b;
    if p == [] {
      assert StartsWith(b, p);
    } else if a == [] {
      assert s == [c] + b;
      assert p[0] in p;
      assert !StartsWith(s, p);
      assert s[1..] == b;
    } else {
      if |a| < |p| <= |s| {
        assert s[..|p|][|a|] == c;
        assert p[|a|] in p;
        assert s[..|p|] != p;
      }
      if |p| <= |a| {
        assert s[..|p|] == a[..|p|];
      }
      assert s[1..] == a[1..] + [c] + b;
      ContainsAcross(a[1..], c, b, p);
      if Contains(a[1..], p) {
        assert a[1..] == a[1..];
      }
    }
  }

  lemma {:induction false} ContainsExtend(a: string, t: string, p: string)
    ensures Contains(a, p) ==> Contains(a + t, p)
    decreases |a|
  {
    if a != [] {
      var s := a + t;
      if StartsWith(a, p) {
        assert s[..|p|] == a[..|p|];
      }
      assert s[1..] == a[1..] + t;
      ContainsExtend(a[1..], t, p);
    }
  }

  lemma {:induction false} LeadOutsideConcat(a: string, b: string, cs: set<char>)
    requires forall i :: 0 <= i < |a| ==> a[i] !in cs
    ensures LeadOutside(a + b, cs) == |a| + LeadOutside(b, cs)
    decreases |a|
  {
    if a == [] {
      assert a + b == b;
    } else {
      assert (a + b)[0] == a[0] && a[0] !in cs;
      assert (a + b)[1..] == a[1..] + b;
      LeadOutsideConcat(a[1..], b, cs);
    }
  }

  lemma BeforeFirstOfConcat(a: string, b: string, cs: set<char>)
    requires forall i :: 0 <= i < |a| ==> a[i] !in cs
    ensures BeforeFirstOf(a + b, cs) == a + BeforeFirstOf(b, cs)
  {
    LeadOutsideConcat(a, b, cs);
    assert (a + b)[..|a| + LeadOutside(b, cs)] == a + b[..LeadOutside(b, cs)];
  }

  /** The markers `classify_link` looks for. */
  predicate NoMarker(s: string) {
    !Contains(s, "drive.google.com") && !Contains(s, "t.me/") && !Contains(s, "telegram.me/")
  }

  lemma MarkerAcross(a: string, c: char, b: string, p: string)
    requires c == '?' || c == '#'
    requires p == "drive.google.com" || p == "t.me/" || p == "telegram.me/"
    requires !Contains(b, p)
    ensures Contains(a + [c] + b, p) <==> Contains(a, p)
  {
    assert c !in p;
    ContainsAcross(a, c, b, p);
    assert a + [c] + b == a + ([c] + b);
    ContainsExtend(a, [c] + b, p);
  }

  /** The kind of a URL does not depend on a query string or fragment
      appended to it, as long as that part names none of the hosts the
      classifier looks for. */
  lemma ClassifyIgnoresQuery(u: string, c: char, q: string)
    requires c == '?' || c == '#'
    requires NoSpace(u) && NoSpace(q)
    requires '?' !in u && '#' !in u
    requires NoMarker(LowerStr(q))
    ensures Classify(u + [c] + q) == Classify(u)
  {
    NormalizedQuery(u, c, q);
    var lu, lq := LowerStr(u), LowerStr(q);
    MarkerAcross(lu, c, lq, "drive.google.com");
    MarkerAcross(lu, c, lq, "t.me/");
    MarkerAcross(lu, c, lq, "telegram.me/");
    BaseQuery(u, c, q);
  }

  lemma NormalizedQuery(u: string, c: char, q: string)
    requires c == '?' || c == '#'
    requires NoSpace(u) && NoSpace(q)
    ensures Normalized(u + [c] + q) == LowerStr(u) + [c] + LowerStr(q)
    ensures Normalized(u) == LowerStr(u)
  {
    var v := u + [c] + q;
    NoSpaceJoin(u, c, q);
    StripNoSpaceEnds(u);
    StripNoSpaceEnds(v);
    LowerStrJoin(u, c, q);
  }

  lemma NoSpaceJoin(u: string, c: char, q: string)
    requires NoSpace(u) && NoSpace(q) && !IsSpace(c)
    ensures NoSpace(u + [c] + q)
  {
    var v := u + [c] + q;
    forall i | 0 <= i < |v| ensures !IsSpace(v[i]) {
      if i < |u| { assert v[i] == u[i]; }
      else if i > |u| { assert v[i] == q[i - |u| - 1]; }
    }
  }

  lemma LowerStrJoin(u: string, c: char, q: string)
    requires c == '?' || c == '#'
    ensures LowerStr(u + [c] + q) == LowerStr(u) + [c] + LowerStr(q)
  {
    LowerStrConcat(u + [c], q);
    LowerStrConcat(u, [c]);
  }

  lemma BaseQuery(u: string, c: char, q: string)
    requires c == '?' || c == '#'
    requires NoSpace(u) && NoSpace(q)
    requires '?' !in u && '#' !in u
    ensures Base(u + [c] + q) == Base(u) == LowerStr(u)
  {
    NormalizedQuery(u, c, q);
    var lu, lq := LowerStr(u), LowerStr(q);
    LowerStrKeeps(u, '?');
    LowerStrKeeps(u, '#');
    assert lu + [c] + lq == lu + ([c] + lq);
    BeforeFirstOfConcat(lu, [c] + lq, {'?'});
    BeforeFirstOfConcat(lu, [], {'?'});
    assert lu + [] == lu;
    var rest := BeforeFirstOf([c] + lq, {'?'});
    assert rest == [] || rest[0] == '#';
    BeforeFirstOfConcat(lu, rest, {'#'});
    BeforeFirstOfConcat(lu, [], {'#'});
  }

  // ---------------------------------------------------------------------------
  // `extract_links_from_folder`: the directory walk is given as the list of
  // files it visits, each with its text, or `None` when reading it fails.
  // The folds are stated for any per-file scan and any classifier, so that
  // their properties are proved once, independently of how a URL is found
  // or classified.

  datatype FileEntry = FileEntry(name: string, text: Option<string>)

  /** Only `.txt`, `.m3u` and `.m3u8` files, in any ASCII case, are read. */
  predicate IsLinkSource(f: FileEntry) {
    LowerStr(Suffix(f.name)) in {".txt", ".m3u", ".m3u8"}
  }

  /** The URLs one file contributes: those in its text when it is a link
      file that could be read, none otherwise. */
  function FileUrls(f: FileEntry): seq<string> {
    if IsLinkSource(f) && f.text.Some? then FindLinksInText(f.text.value) else []
  }

  /** The concatenation of `f` over `xs`, in order. */
  function FlatMap<T>(f: T -> seq<string>, xs: seq<T>): seq<string> {
    if xs == [] then [] else FlatMap(f, xs[..|xs| - 1]) + f(xs[|xs| - 1])
  }

  /** The URLs found in the readable link files, in walk order. */
  function AllUrls(files: seq<FileEntry>): seq<string> {
    FlatMap(FileUrls, files)
  }

  /** Every one of the five kinds is a key. */
  predicate HasAllKeys(m: map<Category, seq<string>>) {
    forall k: Category :: k in m
  }

  function EmptyCats(): (m: map<Category, seq<string>>)
    ensures HasAllKeys(m)
  {
    var m := map[Direct := [], M3u8 := [], Gdrive := [], Telegram := [], Unknown := []];
    FiveKeys(m);
    m
  }

  lemma FiveKeys(m: map<Category, seq<string>>)
    requires Direct in m && M3u8 in m && Gdrive in m && Telegram in m && Unknown in m
    ensures HasAllKeys(m)
  {
    forall k: Category ensures k in m {
      match k
      case Direct =>
      case M3u8 =>
      case Gdrive =>
      case Telegram =>
      case Unknown =>
    }
  }

  /** One step of the inner loop: append `url` to its kind's list unless it
      is already there. */
  function AddLink(cls: string -> Category, m: map<Category, seq<string>>, url: string): (r: map<Category, seq<string>>)
    requires HasAllKeys(m)
    ensures HasAllKeys(r)
  {
    var k := cls(url);
    if url in m[k] then m else m[k := m[k] + [url]]
  }

  function AddLinks(cls: string -> Category, m: map<Category, seq<string>>, urls: seq<string>): (r: map<Category, seq<string>>)
    requires HasAllKeys(m)
    ensures HasAllKeys(r)
  {
    if urls == [] then m else AddLink(cls, AddLinks(cls, m, urls[..|urls| - 1]), urls[|urls| - 1])
  }

  /** The value `extract_links_from_folder` returns. */
  function Extract(files: seq<FileEntry>): (r: map<Category, seq<string>>)
    ensures HasAllKeys(r)
  {
    AddLinks(Classify, EmptyCats(), AllUrls(files))
  }

  lemma FlatMapSnoc<T>(f: T -> seq<string>, xs: seq<T>, i: nat)
    requires i < |xs|
    ensures FlatMap(f, xs[..i + 1]) == FlatMap(f, xs[..i]) + f(xs[i])
  {
    assert xs[..i + 1][..i] == xs[..i];
  }

  lemma AddLinksSnoc(cls: string -> Category, m: map<Category, seq<string>>, s: seq<string>, j: nat)
    requires HasAllKeys(m) && j < |s|
    ensures AddLinks(cls, m, s[..j + 1]) == AddLink(cls, AddLinks(cls, m, s[..j]), s[j])
  {
    assert s[..j + 1][..j] == s[..j];
  }

  lemma {:induction false} AddLinksConcat(cls: string -> Category, m: map<Category, seq<string>>, s: seq<string>, t: seq<string>)
    requires HasAllKeys(m)
    ensures AddLinks(cls, m, s + t) == AddLinks(cls, AddLinks(cls, m, s), t)
    decreases |t|
  {
    if t == [] {
      assert s + t == s;
    } else {
      assert (s + t)[..|s + t| - 1] == s + t[..|t| - 1];
      AddLinksConcat(cls, m, s, t[..|t| - 1]);
    }
  }

  /** Folding one more file's URLs into the result of the files before it. */
  lemma FolderStep<T>(cls: string -> Category, f: T -> seq<string>, files: seq<T>, i: nat)
    requires i < |files|
    ensures AddLinks(cls, EmptyCats(), FlatMap(f, files[..i + 1]))
         == AddLinks(cls, AddLinks(cls, EmptyCats(), FlatMap(f, files[..i])), f(files[i]))
  {
    FlatMapSnoc(f, files, i);
    AddLinksConcat(cls, EmptyCats(), FlatMap(f, files[..i]), f(files[i]));
  }

  /** `extract_links_from_folder`: the outer loop over the files of the walk. */
  method ExtractLinksFromFolder(files: seq<FileEntry>) returns (all: map<Category, seq<string>>)
    ensures all == Extract(files)
  {
    all := EmptyCats();
    for i := 0 to |files|
      invariant all == AddLinks(Classify, EmptyCats(), AllUrls(files[..i]))
    {
      var f := files[i];
      var urls := [];
      if IsLinkSource(f) && f.text.Some? {
        urls := FindLinksInText(f.text.value);
        all := AddFileLinks(all, urls);
      }
      assert urls == FileUrls(f);
      FolderStep(Classify, FileUrls, files, i);
    }
    assert files[..|files|] == files;
  }

  /** The inner loop of `extract_links_from_folder`: each URL of one file is
      appended to its kind's list unless that list already holds it. */
  method AddFileLinks(m: map<Category, seq<string>>, urls: seq<string>) returns (all: map<Category, seq<string>>)
    requires HasAllKeys(m)
    ensures all == AddLinks(Classify, m, urls)
  {
    all := m;
    for j := 0 to |urls|
      invariant all == AddLinks(Classify, m, urls[..j])
    {
      var url := urls[j];
      AddLinksSnoc(Classify, m, urls, j);
      // `all_links.setdefault(kind, [])` never adds a key: all five are present.
      var kind := Classify(url);
      if url !in all[kind] {
        all := all[kind := all[kind] + [url]];
      }
    }
    assert urls[..|urls|] == urls;
  }

  // ---------------------------------------------------------------------------
  // A reference definition of each list, and the properties of the result.

  /** The URLs of kind `k`, in order. */
  function FilterCat(cls: string -> Category, s: seq<string>, k: Category): (r: seq<string>)
    ensures forall x :: x in r <==> x in s && cls(x) == k
  {
    if s == [] then []
    else FilterCat(cls, s[..|s| - 1], k) + (if cls(s[|s| - 1]) == k then [s[|s| - 1]] else [])
  }

  /** Each element at its first occurrence only, in order of first occurrence. */
  function FirstOccurrences(s: seq<string>): (r: seq<string>)
    ensures forall x :: x in r <==> x in s
  {
    if s == [] then []
    else
      var p := s[..|s| - 1];
      assert s == p + [s[|s| - 1]];
      FirstOccurrences(p) + (if s[|s| - 1] in p then [] else [s[|s| - 1]])
  }

  predicate NoDup(s: seq<string>) {
    forall i, j :: 0 <= i < j < |s| ==> s[i] != s[j]
  }

  lemma {:induction false} FirstOccurrencesNoDup(s: seq<string>)
    ensures NoDup(FirstOccurrences(s))
  {
    if s != [] {
      FirstOccurrencesNoDup(s[..|s| - 1]);
    }
  }

  /** Each list of the fold is the first occurrences of the URLs of its kind. */
  lemma {:induction false} AddLinksReference(cls: string -> Category, urls: seq<string>)
    ensures forall k :: AddLinks(cls, EmptyCats(), urls)[k] == FirstOccurrences(FilterCat(cls, urls, k))
  {
    if urls != [] {
      var s := urls[..|urls| - 1];
      var x := urls[|urls| - 1];
      AddLinksReference(cls, s);
      assert urls == s + [x];
      AddLinksLast(cls, s, x);
      var m := AddLinks(cls, EmptyCats(), s);
      forall k
        ensures AddLinks(cls, EmptyCats(), urls)[k] == FirstOccurrences(FilterCat(cls, urls, k))
      {
        FilterCatLast(cls, s, x, k);
        AddLinkStep(cls, m, x, k, FilterCat(cls, s, k));
      }
    }
  }

  /** One URL more: the per-kind reference equation carries over. */
  lemma AddLinkStep(cls: string -> Category, m: map<Category, seq<string>>, x: string, k: Category, f: seq<string>)
    requires HasAllKeys(m) && m[k] == FirstOccurrences(f)
    ensures AddLink(cls, m, x)[k] == FirstOccurrences(f + (if cls(x) == k then [x] else []))
  {
    if cls(x) == k {
      FirstOccurrencesLast(f, x);
      assert x in m[k] <==> x in f;
    } else {
      assert f + [] == f;
    }
  }

  lemma AddLinksLast(cls: string -> Category, s: seq<string>, x: string)
    ensures AddLinks(cls, EmptyCats(), s + [x]) == AddLink(cls, AddLinks(cls, EmptyCats(), s), x)
  {
    var u := s + [x];
    assert u[..|u| - 1] == s;
  }

  lemma FilterCatLast(cls: string -> Category, s: seq<string>, x: string, k: Category)
    ensures FilterCat(cls, s + [x], k) == FilterCat(cls, s, k) + (if cls(x) == k then [x] else [])
  {
    var u := s + [x];
    assert u[..|u| - 1] == s;
  }

  lemma FirstOccurrencesLast(f: seq<string>, x: string)
    ensures FirstOccurrences(f + [x]) == FirstOccurrences(f) + (if x in f then [] else [x])
  {
    var u := f + [x];
    assert u[..|u| - 1] == f;
  }

  /** The folder scan: all five keys are present; each list holds exactly the
      URLs of its kind found in the link files, each once, in the order they
      were first seen. */
  lemma ExtractProperties(files: seq<FileEntry>)
    ensures HasAllKeys(Extract(files))
    ensures forall k :: Extract(files)[k] == FirstOccurrences(FilterCat(Classify, AllUrls(files), k))
    ensures forall k :: NoDup(Extract(files)[k])
    ensures forall k, u :: u in Extract(files)[k] <==> u in AllUrls(files) && Classify(u) == k
  {
    AddLinksReference(Classify, AllUrls(files));
    forall k ensures NoDup(Extract(files)[k]) {
      FirstOccurrencesNoDup(FilterCat(Classify, AllUrls(files), k));
    }
  }

  lemma {:induction false} FlatMapConcat<T>(f: T -> seq<string>, a: seq<T>, b: seq<T>)
    ensures FlatMap(f, a + b) == FlatMap(f, a) + FlatMap(f, b)
    decreases |b|
  {
    if b == [] {
      assert a + b == a;
    } else {
      assert (a + b)[..|a + b| - 1] == a + b[..|b| - 1];
      FlatMapConcat(f, a, b[..|b| - 1]);
    }
  }

  lemma FlatMapSkip<T>(f: T -> seq<string>, a: seq<T>, x: T, b: seq<T>)
    requires f(x) == []
    ensures FlatMap(f, a + [x] + b) == FlatMap(f, a + b)
  {
    FlatMapConcat(f, a + [x], b);
    FlatMapConcat(f, a, [x]);
    FlatMapConcat(f, a, b);
    assert FlatMap(f, [x]) == FlatMap(f, []) + f(x);
  }

  /** A file that is not a readable `.txt`/`.m3u`/`.m3u8` file changes nothing. */
  lemma NonSourceIgnored(a: seq<FileEntry>, f: FileEntry, b: seq<FileEntry>)
    requires !IsLinkSource(f) || f.text.None?
    ensures Extract(a + [f] + b) == Extract(a + b)
  {
    FlatMapSkip(FileUrls, a, f, b);
  }
}
