/** The pure name and input helpers of bot.py: archive and video tests, the
    base names guessed from URLs and files, the file-button labels, and the
    parsing of `/premium` and of a caption replace rule. */
module BotNames {
  import opened Wrappers
  import opened Strings
  import opened PosixPath
  import opened LinkParser

  const ArchiveSuffixes: seq<string> := [".zip", ".rar", ".7z", ".tar", ".gz", ".tgz", ".tar.gz"]
  const VideoExtSet: set<string> := {".mp4", ".mkv", ".mov", ".avi", ".webm", ".ts"}

  /** `is_archive_file`: the lower-cased name ends with an archive suffix. */
  predicate IsArchiveFile(name: string) {
    exists e :: e in ArchiveSuffixes && EndsWith(LowerStr(name), e)
  }

  /** `is_video_file`: the lower-cased name ends with a video extension. */
  predicate IsVideoFile(name: string) {
    exists e :: e in VideoExtSet && EndsWith(LowerStr(name), e)
  }

  /** `is_video_path`: the lower-cased pathlib suffix of the last component
      is a video extension. */
  predicate IsVideoPath(path: string) {
    LowerStr(Suffix(PathName(path))) in VideoExtSet
  }

  lemma EndsWithLower(stem: string, e: string)
    requires forall i :: 0 <= i < |e| ==> !('A' <= e[i] <= 'Z')
    ensures EndsWith(LowerStr(stem + e), e)
  {
    LowerStrConcat(stem, e);
    LowerStrNoUpper(e);
    var l := LowerStr(stem) + e;
    assert l[|l| - |e|..] == e;
  }

  /** Any name ending in an archive suffix, in any case of the stem, is an
      archive; so is any video extension for the video test. */
  lemma ArchiveBySuffix(stem: string, e: string)
    requires e in ArchiveSuffixes
    ensures IsArchiveFile(stem + e)
  {
    EndsWithLower(stem, e);
  }

  lemma VideoBySuffix(stem: string, e: string)
    requires e in VideoExtSet
    ensures IsVideoFile(stem + e)
  {
    assert e == ".mp4" || e == ".mkv" || e == ".mov" || e == ".avi" || e == ".webm" || e == ".ts";
    EndsWithLower(stem, e);
  }

  /** Both tests ignore ASCII case. */
  lemma TestsIgnoreCase(name: string)
    ensures IsArchiveFile(LowerStr(name)) == IsArchiveFile(name)
    ensures IsVideoFile(LowerStr(name)) == IsVideoFile(name)
  {
    LowerStrIdem(name);
  }

  /** For a bare file name the path test implies the name test. */
  lemma VideoPathIsVideoFile(name: string)
    requires '/' !in name && name != [] && name != "."
    ensures IsVideoPath(name) ==> IsVideoFile(name)
  {
    assert name[|name| - 1] in name;
    TrailCountIs(name, {'/'}, 0);
    assert TrimEnd(name, {'/'}) == name;
    TrailOtherIs(name, '/', |name|);
    assert AfterLast(name, '/') == name;
    assert PathName(name) == name;
    var r := Suffix(name);
    if IsVideoPath(name) {
      var e := LowerStr(r);
      assert EndsWith(name, r);
      assert name == name[..|name| - |r|] + r;
      LowerStrConcat(name[..|name| - |r|], r);
      var l := LowerStr(name);
      assert l[|l| - |e|..] == e;
    }
  }

  /** The two tests differ on a hidden file named just a video extension,
      such as `.mp4`: it ends with the extension but has no pathlib suffix. */
  lemma HiddenVideoName(e: string)
    requires e in VideoExtSet
    ensures IsVideoFile(e) && !IsVideoPath(e)
  {
    VideoBySuffix("", e);
    assert "" + e == e;
    ExtShape(e);
    NoSuffixNotVideo(e);
  }

  lemma NoSuffixNotVideo(e: string)
    requires |e| >= 2 && e[0] == '.' && '.' !in e[1..] && '/' !in e[1..]
    ensures !IsVideoPath(e)
  {
    HiddenNameSuffix(e[1..]);
    assert "." + e[1..] == e;
    assert LowerStr([]) == [];
  }

  lemma ExtShape(e: string)
    requires e in VideoExtSet
    ensures |e| >= 2 && e[0] == '.' && '.' !in e[1..] && '/' !in e[1..]
  {
    assert e == ".mp4" || e == ".mkv" || e == ".mov" || e == ".avi" || e == ".webm" || e == ".ts";
  }

  lemma HiddenNameSuffix(x: string)
    requires x != [] && '.' !in x && '/' !in x
    ensures Suffix(PathName("." + x)) == []
  {
    var n := "." + x;
    assert n[|n| - 1] == x[|x| - 1];
    TrailCountIs(n, {'/'}, 0);
    assert TrimEnd(n, {'/'}) == n;
    forall i | 0 <= i < |n| ensures n[i] != '/' {
      if i > 0 { assert n[i] == x[i - 1]; }
    }
    TrailOtherIs(n, '/', |n|);
    assert AfterLast(n, '/') == n;
    assert n != ".";
    assert PathName(n) == n;
    forall i | 1 <= i < |n| ensures n[i] != '.' {
      assert n[i] == x[i - 1];
    }
    TrailOtherIs(n, '.', |x|);
  }

  // ---------------------------------------------------------------------------
  // Base names.

  /** `url.split("?", 1)[0].split("#", 1)[0].rsplit("/", 1)[-1] or fallback`,
      the fallback standing for the generated `file_<uuid>` name. */
  function BaseGuess(url: string, fallback: string): (r: string)
    ensures fallback != [] ==> r != []
    ensures r != fallback ==> '/' !in r && '?' !in r && '#' !in r
  {
    var b := AfterLast(BeforeFirst(BeforeFirst(url, '?'), '#'), '/');
    if b == [] then fallback else b
  }

  /** A URL whose path ends in a plain name guesses that name, whatever
      query follows. */
  lemma {:induction false} BaseGuessOfName(dir: string, n: string, q: string, fallback: string)
    requires '?' !in dir && '#' !in dir
    requires n != [] && '/' !in n && '?' !in n && '#' !in n
    ensures BaseGuess(dir + "/" + n + "?" + q, fallback) == n
  {
    var x := dir + "/" + n;
    assert '?' !in x && '#' !in x;
    BeforeFirstOfConcat(x, "?" + q, {'?'});
    assert x + "?" + q == x + ("?" + q);
    assert BeforeFirst("?" + q, '?') == [] by {
      LeadOutsideIs("?" + q, {'?'}, 0);
    }
    assert BeforeFirst(x + "?" + q, '?') == x;
    BeforeFirstOfConcat(x, [], {'#'});
    assert x + [] == x;
    assert BeforeFirst(x, '#') == x;
    AfterLastOfTail(dir + "/", n);
  }

  /** The stream name `offer_m3u8_quality_menu` stores, as written: the
      `.m3u8` ending is removed with `[:-6]`, one character too many. */
  function StreamBaseNameAsWritten(url: string): string {
    var b := BaseGuess(url, "stream");
    if EndsWith(b, ".m3u8") then b[..if |b| >= 6 then |b| - 6 else 0] else b
  }

  /** The stream name with exactly the `.m3u8` ending removed. */
  function StreamBaseName(url: string): (r: string)
    ensures '/' !in r
  {
    var b := BaseGuess(url, "stream");
    if EndsWith(b, ".m3u8") then b[..|b| - 5] else b
  }

  lemma PlaylistGuess(dir: string, n: string, q: string)
    requires '?' !in dir && '#' !in dir
    requires n != [] && '/' !in n && '?' !in n && '#' !in n
    ensures BaseGuess(dir + "/" + n + ".m3u8" + "?" + q, "stream") == n + ".m3u8"
    ensures EndsWith(n + ".m3u8", ".m3u8")
  {
    assert dir + "/" + n + ".m3u8" + "?" + q == dir + "/" + (n + ".m3u8") + "?" + q;
    BaseGuessOfName(dir, n + ".m3u8", q, "stream");
    var m := n + ".m3u8";
    assert m[|m| - 5..] == ".m3u8";
  }

  /** As written, the last letter of every playlist name is lost. */
  lemma StreamBaseNameLosesLetter(dir: string, n: string, q: string)
    requires '?' !in dir && '#' !in dir
    requires n != [] && '/' !in n && '?' !in n && '#' !in n
    ensures StreamBaseNameAsWritten(dir + "/" + n + ".m3u8" + "?" + q) == n[..|n| - 1]
  {
    PlaylistGuess(dir, n, q);
    var m := n + ".m3u8";
    assert m[..|m| - 6] == n[..|n| - 1];
  }

  /** The instance `<dir>/video.m3u8?<query>` is stored as `vide`. */
  lemma LosesLetterExample(dir: string, q: string)
    requires '?' !in dir && '#' !in dir
    ensures StreamBaseNameAsWritten(dir + "/" + "video" + ".m3u8" + "?" + q) == "vide"
  {
    StreamBaseNameLosesLetter(dir, "video", q);
    assert "video"[..4] == "vide";
  }

  /** Corrected, the playlist name comes back without its extension. */
  lemma StreamBaseNameOfPlaylist(dir: string, n: string, q: string)
    requires '?' !in dir && '#' !in dir
    requires n != [] && '/' !in n && '?' !in n && '#' !in n
    ensures StreamBaseName(dir + "/" + n + ".m3u8" + "?" + q) == n
  {
    PlaylistGuess(dir, n, q);
    var m := n + ".m3u8";
    assert m[..|m| - 5] == n;
  }

  /** `f"{os.path.splitext(file_name)[0]}.m4a"`, the audio file
      `handle_extract_audio` writes, named after the video's stem. */
  function AudioFileName(fileName: string): (r: string)
    ensures EndsWith(r, ".m4a")
    ensures StartsWith(DisplayName(fileName), r[..|r| - 4])
    ensures r[..|r| - 4] + SplitExt(DisplayName(fileName)).1 == DisplayName(fileName)
  {
    var name := DisplayName(fileName);
    var stem := SplitExt(name).0;
    SplitExtStem(name);
    var r := stem + ".m4a";
    assert r[..|r| - 4] == stem && r[|r| - 4..] == ".m4a";
    r
  }

  /** A video named `<stem><ext>` gives the audio file `<stem>.m4a`. */
  lemma AudioOfVideo(stem: string, e: string)
    requires e in VideoExtSet && stem != [] && '.' !in stem && '/' !in stem
    ensures AudioFileName(stem + e) == stem + ".m4a"
  {
    assert e == ".mp4" || e == ".mkv" || e == ".mov" || e == ".avi" || e == ".webm" || e == ".ts";
    assert e[0] == '.' && '.' !in e[1..] && '/' !in e;
    SplitExtOfStem(stem, e);
  }

  /** `video.file_name or "video"`. */
  function DisplayName(fileName: string): (r: string)
    ensures r != []
    ensures fileName != [] ==> r == fileName
  {
    if fileName == [] then "video" else fileName
  }

  lemma SplitExtStem(p: string)
    ensures StartsWith(p, SplitExt(p).0)
  {
    var (a, b) := SplitExt(p);
    assert p == a + b;
    assert p[..|a|] == a;
  }

  // ---------------------------------------------------------------------------
  // File buttons.

  const MaxFileButtons: nat := 25
  const MaxLabel: nat := 40

  /** A button label: names over forty characters become `...` and their
      last thirty-seven. */
  function FileButtonLabel(rel: string): (r: string)
    ensures |r| <= MaxLabel
    ensures |rel| <= MaxLabel ==> r == rel
    ensures |rel| > MaxLabel ==> |r| == MaxLabel && r[..3] == "..." && EndsWith(rel, r[3..])
  {
    if |rel| > MaxLabel then
      var r := "..." + rel[|rel| - 37..];
      assert r[3..] == rel[|rel| - 37..];
      r
    else rel
  }

  /** The `sendone` buttons of the extraction summary: the first twenty-five
      files, each labelled and carrying its index. */
  method FileButtons(files: seq<string>) returns (rows: seq<(string, nat)>)
    ensures |rows| == if |files| < MaxFileButtons then |files| else MaxFileButtons
    ensures forall i :: 0 <= i < |rows| ==> rows[i] == (FileButtonLabel(files[i]), i)
  {
    var shown := if |files| < MaxFileButtons then files else files[..MaxFileButtons];
    rows := [];
    for idx := 0 to |shown|
      invariant |rows| == idx
      invariant forall i :: 0 <= i < idx ==> rows[i] == (FileButtonLabel(files[i]), i)
    {
      var short := shown[idx];
      if |short| > 40 {
        short := "..." + short[|short| - 37..];
      }
      rows := rows + [(short, idx)];
    }
  }

  // ---------------------------------------------------------------------------
  // `/premium <user_id> [days]`.

  datatype PremiumError = Usage | BadUserId

  const DefaultPremiumDays: int := 10

  /** The target and the day count of a `/premium` command; a day count that
      is missing, not an integer or not positive is ten. */
  function ParsePremium(text: string): (r: Result<(int, int), PremiumError>)
    ensures r.Ok? ==> r.value.1 > 0
    ensures |Words(text)| < 2 <==> r == Err(Usage)
  {
    var parts := Words(text);
    if |parts| < 2 then Err(Usage)
    else match ParseInt(parts[1])
      case None => Err(BadUserId)
      case Some(target) =>
        var days := if |parts| >= 3 && ParseInt(parts[2]).Some? then ParseInt(parts[2]).value
                    else DefaultPremiumDays;
        Ok((target, if days <= 0 then DefaultPremiumDays else days))
  }

  /** `/premium <id> <days>` grants that many days when positive, ten
      otherwise. */
  lemma PremiumRoundTrip(cmd: string, id: int, days: int)
    requires cmd != [] && NoSpace(cmd)
    ensures ParsePremium(cmd + " " + IntToString(id) + " " + IntToString(days)) ==
            Ok((id, if days > 0 then days else DefaultPremiumDays))
  {
    var a, b := IntToString(id), IntToString(days);
    var text := cmd + " " + a + " " + b;
    IntWord(id);
    IntWord(days);
    assert text == cmd + " " + (a + " " + b);
    WordsThree(cmd, a, b);
    IntToStringRoundTrip(id);
    IntToStringRoundTrip(days);
    PremiumOfWords(text, cmd, a, b, id, Some(days));
  }

  /** Without a day count, ten days. */
  lemma PremiumNoDays(cmd: string, id: int)
    requires cmd != [] && NoSpace(cmd)
    ensures ParsePremium(cmd + " " + IntToString(id)) == Ok((id, DefaultPremiumDays))
  {
    IntWord(id);
    WordsTwo(cmd, IntToString(id));
    IntToStringRoundTrip(id);
  }

  /** With a day count that is not a number, ten days. */
  lemma PremiumBadDays(cmd: string, id: int, w: string)
    requires cmd != [] && NoSpace(cmd) && w != [] && NoSpace(w) && ParseInt(w).None?
    ensures ParsePremium(cmd + " " + IntToString(id) + " " + w) == Ok((id, DefaultPremiumDays))
  {
    var a := IntToString(id);
    var text := cmd + " " + a + " " + w;
    IntWord(id);
    assert text == cmd + " " + (a + " " + w);
    WordsThree(cmd, a, w);
    IntToStringRoundTrip(id);
    PremiumOfWords(text, cmd, a, w, id, None);
  }

  /** A three-word command: the id from the second word, the days from the
      third when it is a positive integer. */
  lemma PremiumOfWords(text: string, c: string, a: string, w: string, id: int, days: Option<int>)
    requires Words(text) == [c, a, w] && ParseInt(a) == Some(id) && ParseInt(w) == days
    ensures ParsePremium(text) == Ok((id, if days.Some? && days.value > 0 then days.value else DefaultPremiumDays))
  {
  }

  /** `str(i)` is one word. */
  lemma IntWord(i: int)
    ensures IntToString(i) != [] && NoSpace(IntToString(i))
  {
    var d := NatToString(if i < 0 then -i else i);
    var s := IntToString(i);
    forall k | 0 <= k < |s| ensures !IsSpace(s[k]) {
      if i < 0 {
        if k > 0 {
          assert s[k] == d[k - 1];
        }
      } else {
        assert IsDigit(d[k]);
      }
    }
  }

  // ---------------------------------------------------------------------------
  // Caption replace rule `old -> new`.

  datatype RuleError = BadFormat

  predicate ArrowAt(s: string, i: nat) {
    i + 2 <= |s| && (s[i..i + 2] == "->" || s[i..i + 2] == "=>")
  }

  /** Where `re.split(r"->|=>", s, maxsplit=1)` cuts: the leftmost arrow at
      or after `from`. */
  function FirstArrow(s: string, from: nat): (r: Option<nat>)
    decreases |s| - from
    ensures r.Some? ==> from <= r.value && ArrowAt(s, r.value)
    ensures r.Some? ==> forall j :: from <= j < r.value ==> !ArrowAt(s, j)
    ensures r.None? ==> forall j :: from <= j ==> !ArrowAt(s, j)
  {
    if from + 2 > |s| then None
    else if ArrowAt(s, from) then Some(from)
    else FirstArrow(s, from + 1)
  }

  /** The rule of a `replace` reply: the stripped text is cut at its first
      arrow and both sides are stripped; the old text must not be empty,
      the new one may be. */
  function ParseReplaceRule(text: string): (r: Result<(string, string), RuleError>)
    ensures r.Ok? ==> r.value.0 != []
    ensures r.Ok? ==> FirstArrow(Strip(text), 0).Some?
  {
    var t := Strip(text);
    match FirstArrow(t, 0)
    case None => Err(BadFormat)
    case Some(i) =>
      var rfrom, rto := Strip(t[..i]), Strip(t[i + 2..]);
      if rfrom == [] then Err(BadFormat) else Ok((rfrom, rto))
  }

  predicate NoArrow(s: string) {
    forall j :: 0 <= j < |s| ==> !ArrowAt(s, j)
  }

  predicate Trimmed(s: string) {
    s != [] && !IsSpace(s[0]) && !IsSpace(s[|s| - 1])
  }

  /** A rule written `old -> new` gives back its two sides. */
  lemma ReplaceRuleRoundTrip(rfrom: string, rto: string)
    requires Trimmed(rfrom) && Trimmed(rto) && NoArrow(rfrom)
    ensures ParseReplaceRule(rfrom + " -> " + rto) == Ok((rfrom, rto))
  {
    var t := rfrom + " -> " + rto;
    var n := |rfrom|;
    RuleTextStripped(rfrom, rto);
    RuleArrow(rfrom, rto);
    assert t[..n + 1] == rfrom + " ";
    assert t[n + 3..] == " " + rto;
    StripBlankAfter(rfrom);
    StripBlankBefore(rto);
  }

  lemma RuleTextStripped(rfrom: string, rto: string)
    requires Trimmed(rfrom) && Trimmed(rto)
    ensures Strip(rfrom + " -> " + rto) == rfrom + " -> " + rto
  {
    var t := rfrom + " -> " + rto;
    WhitespaceIsSpace(rfrom[0]);
    WhitespaceIsSpace(rto[|rto| - 1]);
    assert t[0] == rfrom[0] && t[|t| - 1] == rto[|rto| - 1];
    StripCharsNone(t, Whitespace);
  }

  /** The first arrow of `old -> new` is the one written between them. */
  lemma RuleArrow(rfrom: string, rto: string)
    requires rfrom != [] && NoArrow(rfrom)
    ensures FirstArrow(rfrom + " -> " + rto, 0) == Some(|rfrom| + 1)
  {
    var t := rfrom + " -> " + rto;
    var n := |rfrom|;
    forall j | 0 <= j < n + 1 ensures !ArrowAt(t, j) {
      if j + 2 <= n {
        assert t[j..j + 2] == rfrom[j..j + 2];
        assert !ArrowAt(rfrom, j);
      } else if j + 1 == n {
        assert t[j + 1] == ' ';
      } else {
        assert t[j] == ' ';
      }
    }
    assert t[n + 1..n + 3] == "->";
    FirstArrowIs(t, 0, n + 1);
  }

  lemma {:induction false} FirstArrowIs(s: string, from: nat, k: nat)
    requires from <= k && ArrowAt(s, k)
    requires forall j :: from <= j < k ==> !ArrowAt(s, j)
    ensures FirstArrow(s, from) == Some(k)
    decreases k - from
  {
    if from < k {
      FirstArrowIs(s, from + 1, k);
    }
  }

  lemma StripBlankAfter(s: string)
    requires Trimmed(s)
    ensures Strip(s + " ") == s
  {
    var t := s + " ";
    WhitespaceIsSpace(s[0]);
    WhitespaceIsSpace(s[|s| - 1]);
    WhitespaceIsSpace(' ');
    LeadCountIs(t, Whitespace, 0);
    assert TrimStart(t, Whitespace) == t;
    assert t[|t| - 2] == s[|s| - 1];
    TrailCountIs(t, Whitespace, 1);
    assert t[..|t| - 1] == s;
  }

  lemma StripBlankBefore(s: string)
    requires Trimmed(s)
    ensures Strip(" " + s) == s
  {
    var t := " " + s;
    WhitespaceIsSpace(s[0]);
    WhitespaceIsSpace(s[|s| - 1]);
    WhitespaceIsSpace(' ');
    assert t[1] == s[0];
    LeadCountIs(t, Whitespace, 1);
    assert t[1..] == s;
    TrailCountIs(s, Whitespace, 0);
    assert s[..|s|] == s;
  }

  /** A reply without an arrow is refused. */
  lemma ReplaceRuleNeedsArrow(text: string)
    requires NoArrow(Strip(text))
    ensures ParseReplaceRule(text) == Err(BadFormat)
  {
  }
}
