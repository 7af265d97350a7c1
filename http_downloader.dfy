/** The file-name logic and the byte counting of utils/http_downloader.py.
    The HTTP exchange is given as a `Response` value: its status, the two
    headers the downloader reads and the chunks of the body in the order
    they arrive. */
module HttpDownloader {
  import opened Wrappers
  import opened Strings
  import opened PosixPath
  import opened UrlDecode

  // ---------------------------------------------------------------------------
  // `_filename_from_cd`: two case-insensitive regular-expression searches.
  // `re.search` reports the match that starts leftmost, so each search tries
  // the positions of the header from left to right.

  const Quotes: set<char> := {'"', ';'}

  /** `\s*=` at the start of `t`: the text after the `=`. */
  function AfterEquals(t: string): (u: Option<string>)
    ensures u.Some? ==> |u.value| < |t|
  {
    var w := LeadCount(t, Whitespace);
    if w < |t| && t[w] == '=' then Some(t[w + 1..]) else None
  }

  /** `\s*[^']*'[^']*'(?P<fn>[^;]+)` at the start of `u`: the value runs up
      to the first `'` (the charset), then up to the next `'` (the
      language); the name is the run of non-`;` characters after that, and it
      must not be empty. */
  function StarTail(u: string): (fn: Option<string>)
    ensures fn.Some? ==> fn.value != [] && ';' !in fn.value
  {
    var i := LeadOutside(u, {'\''});
    if i == |u| then None
    else
      var v := u[i + 1..];
      var j := LeadOutside(v, {'\''});
      if j == |v| then None
      else
        var x := v[j + 1..];
        if x == [] || x[0] == ';' then None
        else Some(BeforeFirstOf(x, {';'}))
  }

  /** `\s*"?(?P<fn>[^";]+)"?` at the start of `u`. With the backtracking of
      `\s*` and `"?`, the name is: the run of characters other than `"` and
      `;` after an opening quote, else such a run right after the blanks,
      else the last blank alone. */
  function PlainTail(u: string): (fn: Option<string>)
    ensures fn.Some? ==> fn.value != [] && '"' !in fn.value && ';' !in fn.value
  {
    var k := LeadCount(u, Whitespace);
    if k < |u| && u[k] == '"' && k + 1 < |u| && u[k + 1] !in Quotes then
      Some(BeforeFirstOf(u[k + 1..], Quotes))
    else if k < |u| && u[k] !in Quotes then
      Some(BeforeFirstOf(u[k..], Quotes))
    else if k > 0 then
      Some([u[k - 1]])
    else
      None
  }

  /** `filename\*\s*=\s*[^']*'[^']*'(?P<fn>[^;]+)` tried at the start of `r`. */
  function StarAt(r: string): (fn: Option<string>)
    ensures fn.Some? ==> fn.value != [] && ';' !in fn.value
  {
    if !StartsWithCI(r, "filename*") then None
    else
      match AfterEquals(r[9..])
      case Some(u) => StarTail(u)
      case None => None
  }

  /** `filename\s*=\s*"?(?P<fn>[^";]+)"?` tried at the start of `r`. */
  function PlainAt(r: string): (fn: Option<string>)
    ensures fn.Some? ==> fn.value != [] && '"' !in fn.value && ';' !in fn.value
  {
    if !StartsWithCI(r, "filename") then None
    else
      match AfterEquals(r[8..])
      case Some(u) => PlainTail(u)
      case None => None
  }

  /** The leftmost match of `StarAt` in `cd` from position `p` on. */
  function SearchStar(cd: string, p: nat): (fn: Option<string>)
    requires p <= |cd|
    decreases |cd| - p
    ensures fn.Some? ==> fn.value != [] && ';' !in fn.value
  {
    if StarAt(cd[p..]).Some? then StarAt(cd[p..])
    else if p == |cd| then None
    else SearchStar(cd, p + 1)
  }

  /** The leftmost match of `PlainAt` in `cd` from position `p` on. */
  function SearchPlain(cd: string, p: nat): (fn: Option<string>)
    requires p <= |cd|
    decreases |cd| - p
    ensures fn.Some? ==> fn.value != [] && '"' !in fn.value && ';' !in fn.value
  {
    if PlainAt(cd[p..]).Some? then PlainAt(cd[p..])
    else if p == |cd| then None
    else SearchPlain(cd, p + 1)
  }

  /** `_filename_from_cd(cd)`: the percent-decoded `filename*=` value when
      there is one, else the `filename=` value, each stripped of blanks and
      then of double quotes. The result may be empty. */
  function FilenameFromCd(cd: string): (r: Option<string>)
    ensures cd == [] ==> r.None?
  {
    if cd == [] then None
    else
      match SearchStar(cd, 0)
      case Some(fn) => Some(StripChars(Strip(Unquote(fn)), {'"'}))
      case None =>
        match SearchPlain(cd, 0)
        case Some(fn) => Some(StripChars(Strip(fn), {'"'}))
        case None => None
  }

  /** A name taken from the `filename=` form contains no `"` and no `;`. */
  lemma PlainNameClean(cd: string)
    requires SearchStar(cd, 0).None?
    ensures FilenameFromCd(cd).Some? ==> '"' !in FilenameFromCd(cd).value && ';' !in FilenameFromCd(cd).value
  {
    if cd != [] && SearchPlain(cd, 0).Some? {
      var fn := SearchPlain(cd, 0).value;
      StripCharsKeeps(fn, Whitespace, '"');
      StripCharsKeeps(Strip(fn), {'"'}, '"');
      StripCharsKeeps(fn, Whitespace, ';');
      StripCharsKeeps(Strip(fn), {'"'}, ';');
    }
  }

  /** Positions where the pattern cannot start do not change the search. */
  lemma {:induction false} StarSkip(cd: string, p: nat, q: nat)
    requires p <= q <= |cd|
    requires forall i :: p <= i < q ==> StarAt(cd[i..]).None?
    ensures SearchStar(cd, p) == SearchStar(cd, q)
    decreases q - p
  {
    if p < q {
      StarSkip(cd, p + 1, q);
    }
  }

  /** The header that percent-encodes `n` in the `filename*=` form. */
  function StarHeader(n: string): string {
    "filename*=UTF-8''" + Quote(n)
  }

  lemma StarAtHeader(n: string)
    requires n != []
    ensures StarAt(StarHeader(n)) == Some(Quote(n))
  {
    assert Utf8Encode(n) == EncodeChar(n[0]) + Utf8Encode(n[1..]);
    StarAtValue(Quote(n));
  }

  lemma StarAtValue(x: string)
    requires x != [] && ';' !in x
    ensures StarAt("filename*=UTF-8''" + x) == Some(x)
  {
    var h := "filename*=UTF-8''" + x;
    assert h == "filename*" + ("=UTF-8''" + x);
    var t := "=UTF-8''" + x;
    StartsWithCIOwn("filename*", t);
    assert h[9..] == t;
    AfterEqualsAt(t);
    assert t[1..] == "UTF-8''" + x;
    StarTailValue(x);
  }

  lemma AfterEqualsAt(t: string)
    requires t != [] && t[0] == '='
    ensures AfterEquals(t) == Some(t[1..])
  {
    WhitespaceIsSpace('=');
    LeadCountIs(t, Whitespace, 0);
  }

  lemma StarTailValue(x: string)
    requires x != [] && ';' !in x
    ensures StarTail("UTF-8''" + x) == Some(x)
  {
    var u := "UTF-8''" + x;
    LeadOutsideIs(u, {'\''}, 5);
    var v := u[6..];
    assert v == "'" + x;
    LeadOutsideIs(v, {'\''}, 0);
    assert v[1..] == x;
    assert x[0] in x;
    LeadOutsideIs(x, {';'}, |x|);
    assert x[..|x|] == x;
  }

  /** No position inside `pre`, which holds no `*`, starts a `filename*=`
      match in front of the header. */
  lemma StarNotInPrefix(pre: string, n: string, i: nat)
    requires '*' !in pre && i < |pre|
    ensures StarAt((pre + StarHeader(n))[i..]).None?
  {
    var cd := pre + StarHeader(n);
    var h := StarHeader(n);
    if i + 8 < |pre| {
      assert cd[i + 8] == pre[i + 8];
    } else {
      assert cd[i + 8] == h[i + 8 - |pre|];
    }
    var r := cd[i..];
    assert r[8] != '*';
    assert LowerStr(r[..9])[8] == Lower(r[8]);
  }

  /** The `filename*=` form wins over anything in front of it that has no
      `*`, `filename=` forms included, and its percent-encoded value comes
      back decoded. */
  lemma StarWins(pre: string, n: string)
    requires '*' !in pre
    requires n != [] && !IsSpace(n[0]) && !IsSpace(n[|n| - 1]) && n[0] != '"' && n[|n| - 1] != '"'
    ensures FilenameFromCd(pre + StarHeader(n)) == Some(n)
  {
    var cd := pre + StarHeader(n);
    forall i | 0 <= i < |pre| ensures StarAt(cd[i..]).None? {
      StarNotInPrefix(pre, n, i);
    }
    StarSkip(cd, 0, |pre|);
    assert cd[|pre|..] == StarHeader(n);
    StarAtHeader(n);
    UnquoteQuote(n);
    StripNoSpaceEnds(n);
    StripCharsNone(n, {'"'});
  }

  /** Text without `*` holds no `filename*=` match at all. */
  lemma {:induction false} NoStarSearch(cd: string, p: nat)
    requires '*' !in cd && p <= |cd|
    ensures SearchStar(cd, p).None?
    decreases |cd| - p
  {
    var r := cd[p..];
    if |r| >= 9 {
      assert r[8] == cd[p + 8];
      assert LowerStr(r[..9])[8] == Lower(r[8]);
    }
    if p < |cd| {
      NoStarSearch(cd, p + 1);
    }
  }

  lemma {:induction false} PlainSkip(cd: string, p: nat, q: nat)
    requires p <= q <= |cd|
    requires forall i :: p <= i < q ==> PlainAt(cd[i..]).None?
    ensures SearchPlain(cd, p) == SearchPlain(cd, q)
    decreases q - p
  {
    if p < q {
      PlainSkip(cd, p + 1, q);
    }
  }

  /** The header that quotes `n` in the `filename=` form. */
  function PlainHeader(n: string): string {
    "filename=\"" + n + "\""
  }

  lemma PlainAtHeader(n: string)
    requires n != [] && '"' !in n && ';' !in n
    ensures PlainAt(PlainHeader(n)) == Some(n)
  {
    var h := PlainHeader(n);
    var t := "=\"" + n + "\"";
    assert h == "filename" + t;
    StartsWithCIOwn("filename", t);
    assert h[8..] == t;
    AfterEqualsAt(t);
    assert t[1..] == "\"" + n + "\"";
    PlainTailQuoted(n);
  }

  lemma PlainTailQuoted(n: string)
    requires n != [] && '"' !in n && ';' !in n
    ensures PlainTail("\"" + n + "\"") == Some(n)
  {
    var u := "\"" + n + "\"";
    WhitespaceIsSpace('"');
    LeadCountIs(u, Whitespace, 0);
    assert n[0] in n;
    var x := u[1..];
    assert x == n + "\"";
    LeadOutsideIs(x, Quotes, |n|);
    assert x[..|n|] == n;
  }

  /** No position inside `pre`, which holds no `=`, starts a `filename=`
      match in front of the header. */
  lemma PlainNotInPrefix(pre: string, n: string, i: nat)
    requires '=' !in pre && i < |pre|
    ensures PlainAt((pre + PlainHeader(n))[i..]).None?
  {
    var cd := pre + PlainHeader(n);
    var r := cd[i..];
    var m := |pre| - i;
    assert r[m] == 'f';
    if m < 8 {
      assert LowerStr(r[..8])[m] == 'f';
      assert "filename"[m] != 'f';
    } else {
      var t := r[8..];
      var w := LeadCount(t, Whitespace);
      WhitespaceIsSpace('f');
      assert t[m - 8] !in Whitespace;
      assert w <= m - 8;
      if w < m - 8 {
        assert t[w] == pre[i + 8 + w];
      }
    }
  }

  /** Without any `filename*=` form, the first `filename=` form gives the
      quoted name, whatever text without `=` precedes it. */
  lemma PlainRoundTrip(pre: string, n: string)
    requires '*' !in pre && '=' !in pre
    requires n != [] && '"' !in n && ';' !in n && '*' !in n
    requires !IsSpace(n[0]) && !IsSpace(n[|n| - 1])
    ensures FilenameFromCd(pre + PlainHeader(n)) == Some(n)
  {
    var cd := pre + PlainHeader(n);
    assert '*' !in cd;
    NoStarSearch(cd, 0);
    forall i | 0 <= i < |pre| ensures PlainAt(cd[i..]).None? {
      PlainNotInPrefix(pre, n, i);
    }
    PlainSkip(cd, 0, |pre|);
    assert cd[|pre|..] == PlainHeader(n);
    PlainAtHeader(n);
    StripNoSpaceEnds(n);
    assert n[0] in n && n[|n| - 1] in n;
    StripCharsNone(n, {'"'});
  }

  // ---------------------------------------------------------------------------
  // `download_file`: where the file goes, and the chunk loop.

  /** `url.split("?", 1)[0].split("#", 1)[0].rsplit("/", 1)[-1]`. */
  function UrlTail(url: string): (r: string)
    ensures '/' !in r && '?' !in r && '#' !in r
  {
    var path := BeforeFirst(BeforeFirst(url, '?'), '#');
    var r := AfterLast(path, '/');
    assert forall i :: 0 <= i < |r| ==> r[i] == path[|path| - |r| + i];
    r
  }

  /** The first non-empty one of: the header name, the URL tail, the
      caller's name, the basename of the destination, and `"file"`. */
  function ChooseName(header: Option<string>, url: string, fileName: Option<string>, destPath: string): (r: string)
    ensures r != []
  {
    if header.Some? && header.value != [] then header.value
    else if UrlTail(url) != [] then UrlTail(url)
    else if fileName.Some? && fileName.value != [] then fileName.value
    else if Basename(destPath) != [] then Basename(destPath)
    else "file"
  }

  /** `os.path.dirname(dest_path) or "."`. */
  function DestDir(destPath: string): (r: string)
    ensures r != []
  {
    if Dirname(destPath) == [] then "." else Dirname(destPath)
  }

  datatype Response = Response(
    status: int,
    contentLength: Option<string>,
    contentDisposition: Option<string>,
    chunks: seq<seq<byte>>)

  datatype DownloadError = HttpStatus(code: int) | BadContentLength

  /** What a download produced: the path written, the bytes written, the
      final counter and the `current` value of each progress call. */
  datatype Download = Download(path: string, written: seq<byte>, downloaded: nat, reports: seq<nat>)

  /** `int(resp.headers.get("Content-Length") or 0)`: a missing or empty
      header counts as 0; text `int()` rejects is an error. */
  function TotalLength(h: Option<string>): Option<int> {
    if h.None? || h.value == [] then Some(0) else ParseInt(h.value)
  }

  /** The chunks written one after the other. */
  function Concat(cs: seq<seq<byte>>): seq<byte> {
    if cs == [] then [] else Concat(cs[..|cs| - 1]) + cs[|cs| - 1]
  }

  /** The counter after each non-empty chunk, in order. */
  function RunningTotals(cs: seq<seq<byte>>): seq<nat> {
    if cs == [] then []
    else if cs[|cs| - 1] == [] then RunningTotals(cs[..|cs| - 1])
    else RunningTotals(cs[..|cs| - 1]) + [|Concat(cs)|]
  }

  /** The progress calls of a download: one per non-empty chunk and one more
      at the end when the counter reached the announced total, and none
      without a status message or a positive total. */
  function Reports(withStatus: bool, total: int, cs: seq<seq<byte>>): seq<nat> {
    if withStatus && total > 0 then
      RunningTotals(cs) + (if |Concat(cs)| == total then [|Concat(cs)|] else [])
    else []
  }

  lemma ChunkStep(cs: seq<seq<byte>>, i: nat)
    requires i < |cs|
    ensures Concat(cs[..i + 1]) == Concat(cs[..i]) + cs[i]
    ensures RunningTotals(cs[..i + 1]) ==
      if cs[i] == [] then RunningTotals(cs[..i]) else RunningTotals(cs[..i]) + [|Concat(cs[..i]) + cs[i]|]
  {
    assert cs[..i + 1][..i] == cs[..i];
  }

  /** The loop `async for chunk in resp.content.iter_chunked(...)`: empty
      chunks are skipped, every other one is written and counted, and with
      `reporting` each one is followed by a progress call. */
  method ReceiveBody(chunks: seq<seq<byte>>, reporting: bool) returns (written: seq<byte>, downloaded: nat, reports: seq<nat>)
    ensures written == Concat(chunks) && downloaded == |written|
    ensures reports == if reporting then RunningTotals(chunks) else []
  {
    downloaded := 0;
    written := [];
    reports := [];
    for i := 0 to |chunks|
      invariant written == Concat(chunks[..i]) && downloaded == |written|
      invariant reports == if reporting then RunningTotals(chunks[..i]) else []
    {
      var chunk := chunks[i];
      ChunkStep(chunks, i);
      if chunk == [] {
        continue;
      }
      written := written + chunk;
      downloaded := downloaded + |chunk|;
      if reporting {
        reports := reports + [downloaded];
      }
    }
    assert chunks[..|chunks|] == chunks;
  }

  /** `download_file(url, dest_path, file_name=..., status_message=...)`. */
  method DownloadFile(url: string, destPath: string, fileName: Option<string>, withStatus: bool, resp: Response)
    returns (r: Result<Download, DownloadError>)
    ensures resp.status >= 400 ==> r == Err(HttpStatus(resp.status))
    ensures resp.status < 400 && TotalLength(resp.contentLength).None? ==> r == Err(BadContentLength)
    ensures resp.status < 400 && TotalLength(resp.contentLength).Some? ==>
      var total := TotalLength(resp.contentLength).value;
      var header := FilenameFromCd(resp.contentDisposition.GetOr(""));
      var name := ChooseName(header, url, fileName, destPath);
      r == Ok(Download(Join(DestDir(destPath), name), Concat(resp.chunks), |Concat(resp.chunks)|,
                       Reports(withStatus, total, resp.chunks)))
  {
    if resp.status >= 400 {
      return Err(HttpStatus(resp.status));
    }
    var totalOpt := TotalLength(resp.contentLength);
    if totalOpt.None? {
      return Err(BadContentLength);
    }
    var total := totalOpt.value;
    var headerName := FilenameFromCd(resp.contentDisposition.GetOr(""));
    var fname := ChooseName(headerName, url, fileName, destPath);
    var finalPath := Join(DestDir(destPath), fname);

    var written, downloaded, reports := ReceiveBody(resp.chunks, withStatus && total > 0);
    if withStatus && total > 0 && downloaded == total {
      reports := reports + [downloaded];
    } else {
      assert reports + [] == reports;
    }
    return Ok(Download(finalPath, written, downloaded, reports));
  }

  // ---------------------------------------------------------------------------
  // Properties of the name, the path and the counter.

  /** The name comes from the first source in the order header, URL,
      caller, destination, and is never empty. */
  lemma ChooseNamePriority(header: Option<string>, url: string, fileName: Option<string>, destPath: string)
    ensures var r := ChooseName(header, url, fileName, destPath);
      && (header.Some? && header.value != [] ==> r == header.value)
      && ((header.None? || header.value == []) && UrlTail(url) != [] ==> r == UrlTail(url))
      && ((header.None? || header.value == []) && UrlTail(url) == [] && fileName.Some? && fileName.value != [] ==> r == fileName.value)
      && ((header.None? || header.value == []) && UrlTail(url) == [] && (fileName.None? || fileName.value == [])
          ==> r == (if Basename(destPath) != [] then Basename(destPath) else "file"))
  {
  }

  /** Without a header name or a caller's name containing `/`, the name is a
      single path component. */
  lemma ChosenNamePlain(header: Option<string>, url: string, fileName: Option<string>, destPath: string)
    requires header.Some? ==> '/' !in header.value
    requires fileName.Some? ==> '/' !in fileName.value
    ensures '/' !in ChooseName(header, url, fileName, destPath)
  {
    var f := "file";
    assert f[0] != '/' && f[1] != '/' && f[2] != '/' && f[3] != '/';
    assert '/' !in Basename(destPath) && '/' !in UrlTail(url);
  }

  /** A plain name lands in the destination directory, under that name; a
      name that starts with `/` replaces the directory altogether. */
  lemma FinalPathParts(destPath: string, name: string)
    ensures '/' !in name && name != [] ==> Basename(Join(DestDir(destPath), name)) == name
    ensures '/' !in name && name != [] && !AllSlashes(DestDir(destPath)) ==>
      Dirname(Join(DestDir(destPath), name)) == DestDir(destPath)
    ensures StartsWith(name, "/") ==> Join(DestDir(destPath), name) == name
  {
    var d := DestDir(destPath);
    if '/' !in name && name != [] {
      BasenameJoin(d, name);
      if !AllSlashes(d) {
        DirnameJoin(d, name);
      }
    }
  }

  function NonEmpty(cs: seq<seq<byte>>): seq<seq<byte>> {
    if cs == [] then []
    else NonEmpty(cs[..|cs| - 1]) + (if cs[|cs| - 1] == [] then [] else [cs[|cs| - 1]])
  }

  function SumLengths(cs: seq<seq<byte>>): nat {
    if cs == [] then 0 else SumLengths(cs[..|cs| - 1]) + |cs[|cs| - 1]|
  }

  /** The counter is the sum of the lengths of the non-empty chunks, and the
      empty chunks change neither the bytes written nor the progress calls. */
  lemma {:induction false} EmptyChunksIgnored(cs: seq<seq<byte>>)
    ensures |Concat(cs)| == SumLengths(NonEmpty(cs))
    ensures Concat(NonEmpty(cs)) == Concat(cs)
    ensures RunningTotals(NonEmpty(cs)) == RunningTotals(cs)
    ensures |RunningTotals(cs)| == |NonEmpty(cs)|
  {
    if cs != [] {
      var p, c := cs[..|cs| - 1], cs[|cs| - 1];
      EmptyChunksIgnored(p);
      var q := NonEmpty(p);
      if c != [] {
        assert NonEmpty(cs) == q + [c];
        assert (q + [c])[..|q|] == q;
      } else {
        assert NonEmpty(cs) == q + [];
        assert q + [] == q;
      }
    }
  }

  predicate StrictlyIncreasing(s: seq<nat>) {
    forall i, j :: 0 <= i < j < |s| ==> s[i] < s[j]
  }

  /** The counter only grows: each progress call reports more bytes than the
      one before, the last one reports everything, and none reports 0. */
  lemma {:induction false} RunningTotalsIncrease(cs: seq<seq<byte>>)
    ensures StrictlyIncreasing(RunningTotals(cs))
    ensures forall i :: 0 <= i < |RunningTotals(cs)| ==> 0 < RunningTotals(cs)[i] <= |Concat(cs)|
    ensures RunningTotals(cs) != [] ==> RunningTotals(cs)[|RunningTotals(cs)| - 1] == |Concat(cs)|
  {
    if cs != [] {
      RunningTotalsIncrease(cs[..|cs| - 1]);
    }
  }

  /** With a status message and a positive total, a download that received
      exactly the announced length ends with a progress call for the total;
      otherwise no call ever reports more than was received. */
  lemma FinalReport(withStatus: bool, total: int, cs: seq<seq<byte>>)
    ensures var rs := Reports(withStatus, total, cs);
      && (forall i :: 0 <= i < |rs| ==> rs[i] <= |Concat(cs)|)
      && (withStatus && total > 0 && |Concat(cs)| == total ==> rs != [] && rs[|rs| - 1] == total)
      && (!withStatus || total <= 0 ==> rs == [])
  {
    RunningTotalsIncrease(cs);
  }
}
