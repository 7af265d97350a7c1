# SERENA-UNZIP, modelled in Dafny

SERENA-UNZIP is a Telegram bot. It downloads archives and links for its users,
extracts them and uploads the files back. This project models the bot's core
logic and proves properties of that model:

- **Link handling.** Links are found in a message or in a folder of text files
  (`utils/link_parser.py`). Each link is sorted into Google Drive, Telegram,
  m3u8, direct-file or unknown.
- **Downloads.** `utils/http_downloader.py` downloads over HTTP. The model covers:
  - how the file name is picked (`Content-Disposition` header, URL tail,
    caller's name, destination name);
  - the chunk loop and its progress calls.
- **m3u8 streams.** `utils/m3u8_tools.py` labels the quality variants of a
  playlist and builds the ffmpeg remux command.
- **Progress.** `utils/progress.py` covers the byte and duration formatting and
  the throttled progress message: percentage, bar, speed, ETA, and the table of
  last updates.
- **Database.** `database.py` holds the user documents. The model covers:
  - the daily statistics and their reset;
  - ban and premium flags;
  - the table of temporary paths and its expiry sweep.
- **The orchestration in `bot.py`:**
  - the per-user locks and cancel flags;
  - premium expiry and the caption settings (numbered captions, a replace rule,
    a one-day lifetime for non-premium users);
  - parsing of the `/premium` command and the replace rule;
  - the unzip task and its send-one buttons;
  - the m3u8 quality menu and the choice that follows it;
  - the "download all links" batch.

Python's built-in operations are written out in `strings.dfy`, `posix_path.dfy`
and `url_decode.dfy`. These include `str.strip`, `str.split`, `str.lower`,
`int()` and `f"{n:03d}"`, `os.path.join`/`dirname`/`basename`/`splitext`,
`pathlib` `name`/`suffix`, and `urllib.parse.unquote`/`quote`.

Modelling choices:

- **Module state.** The bot's module-level dictionaries become fields of two
  classes, `BotState.State` and `BotCaption.CaptionState`. The database
  collections become `Database.UserStore` and `Database.TempStore`.
- **Await points.** The bot's coroutines are cut into methods, mostly at their
  await points; the methods that span several awaits are listed under
  "## Left out". What happens outside the bot becomes a parameter of the
  method:
  - whether a download succeeded;
  - the extracted file list;
  - whether an upload raised;
  - the m3u8 parse;
  - the clock.
- **Batch oracles.** The batch receives those outcomes as functions indexed by
  link position (an `Outcomes` value).
- **Clock and time.**
  - `time.time()` is an exact `real`.
  - Database timestamps are integers in microseconds, so `timedelta(minutes=…)`
    is exact; the millisecond rounding of BSON storage is not modelled.
- **Case-insensitive matching.** This means `str.lower` and `re.IGNORECASE`. It
  is ASCII only.

## Model

| member | source | states |
|---|---|---|
| Strings.LowerStrIdem | bot.py:467-469 | lowering a string twice is lowering it once |
| Strings.Words | bot.py:706 | `str.split()` yields only non-empty words without whitespace |
| Strings.WordsThree | bot.py:706 | a three-word command line splits into exactly its three words |
| Strings.IntToStringRoundTrip | bot.py:714-725 | `int()` parses back every integer `str()` prints, negative ones included |
| Strings.Pad3RoundTrip | bot.py:347-349 | the `%03d` counter has at least three digits and parses back to the counter |
| Strings.LeadCount | bot.py:934 | the leading run counted by `strip` is the longest prefix inside the set |
| Strings.TrailCount | bot.py:934 | the trailing run counted by `strip` is the longest suffix inside the set |
| Strings.Strip | bot.py:934 | `str.strip()`: removes the leading and trailing whitespace runs that `LeadCount` and `TrailCount` measure |
| Strings.ParseInt | bot.py:716 | `int()` of a string: surrounding whitespace ignored, an optional sign, then digits with single underscores between them; anything else is no value (round trip in `IntToStringRoundTrip`) |
| Strings.Pad3 | bot.py:349 | `%03d`: the decimal digits, left-padded with zeros to three (properties in `Pad3RoundTrip`) |
| Strings.Replace | bot.py:355 | `str.replace`: every non-overlapping occurrence, scanned from the left, replaced (absent text in `ReplaceAbsent`) |
| PosixPath.Basename | utils/http_downloader.py:71 | `os.path.basename` is a slash-free suffix that starts right after a slash |
| PosixPath.Dirname | utils/http_downloader.py:50 | `os.path.dirname` is a prefix, non-empty exactly when the path has a slash, and ends without a trailing slash |
| PosixPath.SplitExt | bot.py:1575 | `os.path.splitext` splits the path into stem and extension; the extension is `.` with no further dot or slash |
| PosixPath.SplitExtOfStem | bot.py:1575 | `splitext` of a dot-free, slash-free stem followed by one extension gives back the stem and the extension |
| PosixPath.Suffix | bot.py:100-101 | `Path.suffix` is empty or a dot-led proper suffix of the name with no second dot |
| PosixPath.BasenameJoin | utils/http_downloader.py:73 | the base name of `join(d, n)` is `n` for every slash-free `n` |
| PosixPath.DirnameJoin | utils/http_downloader.py:73 | the directory of `join(d, n)` is `d` for a slash-free `n` and a `d` without trailing slash |
| UrlDecode.Utf8RoundTrip | utils/http_downloader.py:22-26 | decoding the UTF-8 encoding of any string gives the string back |
| UrlDecode.PercentBytesRoundTrip | utils/http_downloader.py:22-26 | percent-decoding the percent-encoding of any byte string gives the bytes back |
| UrlDecode.UnquoteQuote | utils/http_downloader.py:22-26 | `unquote(quote(s)) == s` for every string |
| UrlDecode.UnquoteRunsPlain | utils/http_downloader.py:22-26 | text without `%` passes through `unquote` unchanged |
| UrlDecode.PercentEncode | utils/http_downloader.py:22-26 | the encoding is ASCII, three characters per byte, with no quote, `;` or `*` |
| UrlDecode.Unquote | utils/http_downloader.py:24-26 | `urllib.parse.unquote`: text without `%` unchanged, otherwise each run of percent escapes decoded as UTF-8 with replacement (round trip in `UnquoteQuote`) |
| LinkParser.SchemeLen | utils/link_parser.py:7-10 | the scheme matched is `https://` (8) or `http://` (7), case-insensitively, or nothing |
| LinkParser.RunLen | utils/link_parser.py:7-10 | `\S+` takes the longest run of non-whitespace |
| LinkParser.FindLinksInText | utils/link_parser.py:28-29 | `find_links_in_text`: the cleaned matches of the link pattern, left to right, duplicates kept (shape in `LinksShaped`, order in `ScanSplit`) |
| LinkParser.LinksShaped | utils/link_parser.py:28-29 | every link found starts with the scheme, has no whitespace and ends in no trailing punctuation |
| LinkParser.CleanShaped | utils/link_parser.py:28-29 | trimming trailing punctuation from a regex match keeps a well-shaped link |
| LinkParser.ScanSplit | utils/link_parser.py:28-29 | the links of `a + space + b` are the links of `a` followed by those of `b` |
| LinkParser.ScanKeepsDuplicates | utils/link_parser.py:28-29 | a text repeated twice yields every link twice: the finder does not deduplicate |
| LinkParser.Classify | utils/link_parser.py:32-54 | `classify_link`: Drive, Telegram, m3u8, file extension, otherwise unknown, the first test that holds deciding (stated in `ClassifySpec`) |
| LinkParser.ClassifySpec | utils/link_parser.py:32-54 | each category holds exactly when its test holds and every earlier test fails (Drive, Telegram, m3u8, file extension, unknown) |
| LinkParser.DirectWithQuery | utils/link_parser.py:45-52 | a URL whose path ends in a file extension is direct whatever query or fragment follows |
| LinkParser.ClassifyIgnoresQuery | utils/link_parser.py:45-52 | for a URL free of Drive and Telegram markers, the category does not depend on the query or fragment |
| LinkParser.FileExtNotM3u8 | utils/link_parser.py:47-52 | no file extension in the table makes a URL m3u8 |
| LinkParser.ExtractLinksFromFolder | utils/link_parser.py:57-88 | the loop over files and lines computes `Extract(files)` |
| LinkParser.AddFileLinks | utils/link_parser.py:76-86 | the inner loop adds one file's links in order, skipping those already listed |
| LinkParser.ExtractProperties | utils/link_parser.py:57-88 | every category exists and holds the first occurrences of the URLs of that category, without duplicates; a URL is listed iff it occurs in a source file and has that category |
| LinkParser.AddLinksReference | utils/link_parser.py:81-86 | the incremental dedup equals first occurrences of the category's filtered URLs |
| LinkParser.FirstOccurrencesNoDup | utils/link_parser.py:81-86 | the deduplicated list has no duplicates |
| LinkParser.FirstOccurrences | utils/link_parser.py:81-86 | deduplication keeps exactly the elements of the input |
| LinkParser.FilterCat | utils/link_parser.py:81-86 | a category's list holds exactly the inputs classified into it |
| LinkParser.NonSourceIgnored | utils/link_parser.py:73-75 | a file whose lower-cased suffix is not `.txt`, `.m3u` or `.m3u8` contributes nothing |
| LinkParser.EmptyCats | utils/link_parser.py:62-68 | the result always has all five category keys |
| LinkParser.Extract | utils/link_parser.py:57-88 | the value `extract_links_from_folder` returns always has the five category keys (contents in `ExtractProperties`) |
| HttpDownloader.FilenameFromCd | utils/http_downloader.py:18-19 | an empty header yields no name |
| HttpDownloader.PlainNameClean | utils/http_downloader.py:29-31 | a name from the plain `filename=` branch (no `filename*=` match) never contains `"` or `;` |
| HttpDownloader.StarWins | utils/http_downloader.py:22-26 | a `filename*=UTF-8''…` parameter yields its percent-decoded name, whatever precedes it |
| HttpDownloader.PlainRoundTrip | utils/http_downloader.py:29-31 | a header ending in `filename="n"` yields `n` when nothing before it matches |
| HttpDownloader.StarAtHeader | utils/http_downloader.py:22-26 | the extended form of a name parses back to the encoded name |
| HttpDownloader.NoStarSearch | utils/http_downloader.py:22-26 | without `filename*=` the extended-name search finds nothing |
| HttpDownloader.UrlTail | utils/http_downloader.py:67 | the URL tail has no `/`, `?` or `#` |
| HttpDownloader.ChooseName | utils/http_downloader.py:63-71 | the chosen file name is never empty, since `file` is the last fallback (order in `ChooseNamePriority`) |
| HttpDownloader.ChooseNamePriority | utils/http_downloader.py:63-71 | header name first, then URL tail, then the caller's name, then the destination's base name, then `file` |
| HttpDownloader.ChosenNamePlain | utils/http_downloader.py:63-71 | without a slash in the header or caller's name, the chosen name has no slash |
| HttpDownloader.FinalPathParts | utils/http_downloader.py:73 | the final path ends in the chosen name; a name starting with `/` replaces the directory |
| HttpDownloader.DestDir | utils/http_downloader.py:50 | the destination directory is never empty |
| HttpDownloader.ReceiveBody | utils/http_downloader.py:79-93 | the loop writes the concatenation of the chunks, counts its length and reports the running totals when reporting |
| HttpDownloader.DownloadFile | utils/http_downloader.py:36-106 | an error status or a non-numeric length fails; otherwise the file is at `join(dest_dir, name)` and holds every chunk, and the reports are the running totals, followed by the total when it was reached |
| HttpDownloader.EmptyChunksIgnored | utils/http_downloader.py:80-81 | empty chunks change neither the file nor the reports |
| HttpDownloader.RunningTotalsIncrease | utils/http_downloader.py:83-93 | reported counts strictly increase, stay within the file size and end at it |
| HttpDownloader.FinalReport | utils/http_downloader.py:96-104 | the last report is the total when the download reached it; no status or no total means no reports |
| M3u8Tools.GetM3u8Variants | utils/m3u8_tools.py:21-53 | a master playlist gives one variant per sub-playlist with its label and URL; otherwise one `Auto` variant of the URL itself |
| M3u8Tools.ReadLabelOfLabel | utils/m3u8_tools.py:32-38 | the label reads back as the height, the bandwidth in kbps, or the `Variant` default, in that priority |
| M3u8Tools.ReadNumberP | utils/m3u8_tools.py:36 | `<h>p` reads back as height `h` |
| M3u8Tools.ReadNumberKbps | utils/m3u8_tools.py:38 | `<k>kbps` reads back as `k` kbps |
| M3u8Tools.RemuxCommandReads | utils/m3u8_tools.py:60-68 | the ffmpeg command reads the source after `-i`, overwrites with `-y`, copies codecs and ends in the destination |
| Progress.UnitIndex | utils/progress.py:12-22 | the unit chosen is the largest power of 1024 not above the size, capped at TB |
| Progress.HumanBytes | utils/progress.py:12-22 | zero is `0 B`; otherwise value × 1024^unit is exactly the size, in the unit `UnitIndex` picks |
| Progress.Hms | utils/progress.py:25-34 | the hours, minutes and seconds add back to the total, minutes and seconds below 60 |
| Progress.HumanTime | utils/progress.py:25-34 | `human_time`: a negative input counts as zero; hours, minutes and seconds with leading zero parts left out (round trip in `HumanTimeRoundTrip`) |
| Progress.HumanTimeRoundTrip | utils/progress.py:25-34 | reading the rendered duration back gives the seconds (negative input renders as 0) |
| Progress.HumanTimeWords | utils/progress.py:25-34 | the rendered duration splits into the words of its non-zero leading parts |
| Progress.HumanTimeParts | utils/progress.py:25-34 | three words from an hour up, two from a minute up, one below |
| Progress.HumanTimeZero | utils/progress.py:26-34 | a non-positive count shows as `0s` |
| Progress.TimeWordsSum | utils/progress.py:25-34 | the words of a duration add up to its seconds |
| Progress.Trunc | utils/progress.py:60 | `int()` truncates toward zero |
| Progress.Repeat | utils/progress.py:62-63 | a repeated character run has the asked length and only that character |
| Progress.PercentBar | utils/progress.py:53-63 | for `0 <= current <= total`, the percentage is in [0, 100] and is 100 iff done; the filled length is `20*current // total` and is 20 iff done |
| Progress.PercentRange | utils/progress.py:53-56 | the percentage is in [0, 100] and reaches 100 iff current equals total |
| Progress.BarShape | utils/progress.py:62-63 | the bar has 20 cells, filled ones first |
| Progress.EtaFacts | utils/progress.py:58-60 | the ETA is zero at completion and without speed, never negative before completion, and is the whole part of remaining bytes over speed |
| Progress.ProgressTracker.Report | utils/progress.py:37-83 | a call within the interval of the last one shows nothing; others record the time and show percent, bar, speed and ETA; completion drops the entry |
| Progress.CompletionShown | utils/progress.py:48-49 | the completing call is never throttled and removes its entry |
| Progress.ThrottleWindow | utils/progress.py:47-51 | a call is skipped iff it is before completion and within the interval of the last update; a shown call records `now` |
| Progress.OtherMessagesUntouched | utils/progress.py:51 | a call changes only its own message's entry |
| Progress.SkippedIdle | utils/progress.py:48-49 | a skipped call leaves the table unchanged |
| Database.TempStore.RegisterTempPath | database.py:102-109 | a new record with a fresh id is appended |
| Database.TempStore.GetExpiredTempPaths | database.py:112-126 | returns the paths of expired records in insertion order and deletes exactly those records |
| Database.SweepDeletesExpired | database.py:112-126 | deleting the returned ids leaves exactly the live records |
| Database.LiveRecordsSpec | database.py:112-126 | a record survives the sweep iff it is stored and not expired |
| Database.SweepPartition | database.py:112-126 | every record is either returned or kept, and no kept record is expired |
| Database.SweepAgainEmpty | database.py:112-126 | a second sweep at the same time returns nothing |
| Database.SweepLater | database.py:112-126 | sweeping at `now` then at a later time equals sweeping once at the later time |
| Database.LiveKeepsOrder | database.py:112-126 | the sweep keeps ids increasing and below the counter |
| Database.NewUser | database.py:17-35 | a new document is neither premium nor banned and has zeroed stats reset today |
| Database.ResetDaily | database.py:38-50 | stats from another day are zeroed and marked reset today; today's are kept |
| Database.GetOrCreate | database.py:15-51 | stores the returned document under the id; its stats are reset today |
| Database.UserStore.GetOrCreateUser | database.py:15-51 | the store becomes the one `GetOrCreate` returns |
| Database.GetOrCreateAsWritten | database.py:15-51 | fails exactly on a stored document without stats |
| Database.UserStore.GetOrCreateUserAsWritten | database.py:15-51 | follows `GetOrCreateAsWritten`, leaving the store unchanged on failure |
| Database.GetOrCreateAgrees | database.py:15-51 | the code as written and the corrected one agree whenever the former succeeds |
| Database.NewUserClean | database.py:17-35 | a first contact creates a clean, unbanned user |
| Database.DailyReset | database.py:38-50 | a known user's counters are zeroed on a new day and kept on the same day |
| Database.GetOrCreateIdempotent | database.py:15-51 | a second call on the same day returns the same document and store |
| Database.UpdateCountsOne | database.py:54-66 | the daily task counter grows by one; the other users are unchanged |
| Database.UpdateUserStats | database.py:54-66 | no document is created or removed and other users are untouched; the user's daily task count grows by one from the stored count or from zero, the last task time becomes `now`, the flags stay |
| Database.UserStore.UpdateStats | database.py:54-66 | the store follows `UpdateUserStats` |
| Database.UserStore.Ban | database.py:77-82 | the store follows `SetBan` |
| Database.UserStore.Premium | database.py:69-74 | the store follows `SetPremium` |
| Database.SetBan | database.py:77-82 | the upsert sets the ban flag and keeps stats and the premium flag; an unknown user gets a bare document without stats, settings or premium flag; other users untouched |
| Database.SetPremium | database.py:69-74 | the upsert sets the premium flag and keeps stats and the ban flag; an unknown user gets a bare document without stats, settings or ban flag; other users untouched |
| Database.IsBanned | database.py:85-87 | banned iff the stored document's flag is true |
| Database.BanRoundTrip | database.py:77-87 | after `set_ban(v)` the user is banned iff `v`, also after a premium change |
| Database.BanUnknownBreaksGet | database.py:39 | unbanning an unknown user creates an unbanned document without stats, so the guard lets the user through and the next lookup fails; a ban of an unknown user is stopped by the guard first |
| Database.BanUnknownThenGet | database.py:77-82 | with the corrected lookup, an unbanned unknown user stays unbanned and gets fresh stats |
| BotNames.IsArchiveFile | bot.py:462-464 | `is_archive_file`: the lower-cased name ends with one of the seven archive suffixes |
| BotNames.IsVideoFile | bot.py:467-469 | `is_video_file`: the lower-cased name ends with a video extension |
| BotNames.IsVideoPath | bot.py:100-101 | `is_video_path`: the lower-cased `Path.suffix` of the last component is a video extension |
| BotNames.ArchiveBySuffix | bot.py:462-464 | any name ending in an archive extension is an archive |
| BotNames.VideoBySuffix | bot.py:467-469 | any name ending in a video extension is a video |
| BotNames.TestsIgnoreCase | bot.py:462-469 | both tests ignore letter case |
| BotNames.VideoPathIsVideoFile | bot.py:100-101 | a plain name that `is_video_path` accepts is also accepted by `is_video_file` |
| BotNames.HiddenVideoName | bot.py:100-101 | a bare `.mp4` passes the suffix test of `is_video_file` but not `Path.suffix` |
| BotNames.BaseGuess | bot.py:1719-1720 | the guessed name is never empty when the fallback is not, and has no `/`, `?` or `#` |
| BotNames.BaseGuessOfName | bot.py:1719-1720 | a URL ending in a plain name guesses that name |
| BotNames.StreamBaseNameAsWritten | bot.py:1887-1890 | the base name as written: the URL's last path segment, or `stream`, cut by six characters when it ends in `.m3u8` (see Findings) |
| BotNames.StreamBaseNameLosesLetter | bot.py:1887-1890 | as written, `x.m3u8` becomes `x` without its last letter |
| BotNames.LosesLetterExample | bot.py:1887-1890 | as written, `…/video.m3u8?…` becomes `vide` |
| BotNames.StreamBaseNameOfPlaylist | bot.py:1887-1890 | corrected, `…/n.m3u8?…` becomes `n` |
| BotNames.StreamBaseName | bot.py:1887-1890 | the stream's base name has no slash |
| BotNames.AudioFileName | bot.py:1574-1575 | the audio name is the `splitext` stem of the video's name followed by `.m4a` |
| BotNames.AudioOfVideo | bot.py:1574-1575 | a video named `<stem><ext>`, with a dot-free stem and a video extension, gives `<stem>.m4a` |
| BotNames.DisplayName | bot.py:1574 | a missing name becomes `video`; a present one is kept |
| BotNames.FileButtonLabel | bot.py:1334-1336 | a label is at most 40 characters, the path itself when short, else `...` and the path's tail |
| BotNames.FileButtons | bot.py:1332-1339 | one button per file, for the first 25 files, carrying the label and the index |
| BotNames.ParsePremium | bot.py:706-729 | fewer than two words iff the usage error; granted days are positive |
| BotNames.PremiumRoundTrip | bot.py:706-729 | `/premium <id> <days>` parses to the id and the days, or 10 for non-positive days |
| BotNames.PremiumNoDays | bot.py:720-729 | without a day count the grant is 10 days |
| BotNames.PremiumBadDays | bot.py:721-725 | a day count that is not an integer falls back to 10 |
| BotNames.FirstArrow | bot.py:950 | finds the first `->` or `=>` at or after a position |
| BotNames.ParseReplaceRule | bot.py:950-951 | an accepted rule has a non-empty left side and the text contains an arrow |
| BotNames.ReplaceRuleRoundTrip | bot.py:950-967 | `a -> b` with trimmed sides and no arrow in `a` parses to `(a, b)` |
| BotNames.ReplaceRuleNeedsArrow | bot.py:950-951 | text without an arrow is refused |
| BotCaption.IsPremium | bot.py:108-115 | a user is premium while a non-zero expiry is stored and not yet passed |
| BotCaption.AfterPremiumCheck | bot.py:112-113 | the premium check pops a passed non-zero expiry and changes nothing else |
| BotCaption.GrantPremium | bot.py:731 | `/premium` stores the expiry `now + days * 86400` |
| BotCaption.CaptionExpired | bot.py:330 | a caption config expires when its user is not premium and it is more than 86400 s old |
| BotCaption.CaptionStep | bot.py:337-359 | keeps base and rule, stamps the time, and advances the counter exactly when a base is set |
| BotCaption.CaptionState.IsPremiumUser | bot.py:108-115 | answers `IsPremium` and drops a passed expiry |
| BotCaption.CaptionState.GetCaptionCfg | bot.py:323-334 | no settings gives none; a non-premium user's settings older than a day are deleted |
| BotCaption.CaptionState.BuildCaption | bot.py:337-359 | without live settings the default caption; otherwise the caption of `CaptionStep`, whose new settings are stored |
| BotCaption.CaptionState.GrantPremiumDays | bot.py:731 | the expiry becomes `now + days*86400` |
| BotCaption.CaptionState.SetCaptionBase | bot.py:935-949 | empty text after strip is refused and changes nothing; otherwise base set, counter 0, time stamped, rule kept (none for a user without settings, who starts from `{}`), others untouched |
| BotCaption.CaptionState.SetReplaceRule | bot.py:950-967 | the rule and time are set; base and counter kept (no base and counter 0 for a user without settings, who starts from `{}`); others untouched |
| BotCaption.CaptionState.ResetSettings | bot.py:1033-1035 | removes exactly this user's settings |
| BotCaption.PremiumExpiry | bot.py:108-115 | unknown users are not premium; a passed expiry is not premium; a check on a premium user changes nothing |
| BotCaption.GrantHolds | bot.py:731 | after a grant the user is premium exactly until `now + days*86400` |
| BotCaption.CaptionTtl | bot.py:329-332 | premium settings never expire; others expire iff more than 86400 s old |
| BotCaption.NumberedCaption | bot.py:345-349 | with a base and no matching rule, the caption is the next counter in three digits, a space and the base, and its number parses back |
| BotCaption.ConsecutiveNumbers | bot.py:345-349 | two captions in a row carry consecutive numbers |
| BotCaption.DefaultCaptionKept | bot.py:339-355 | without a base, the default is unchanged when the rule is incomplete or its left side does not occur |
| BotCaption.ReplaceAbsent | bot.py:352-355 | replacing a substring that does not occur changes nothing |
| BotState.State.GetLock | bot.py:90-93 | returns the user's lock, creating a fresh one distinct from every other user's |
| BotState.State.CancelCmd | bot.py:641-647 | sets only this user's cancel flag |
| BotState.State.StartUnzipTask | bot.py:1220-1244 | the lock table gains a fresh lock for a new user and is otherwise unchanged; busy iff the user's lock is held, changing nothing else; otherwise takes the lock, clears the flag, creates the user and registers the temp path |
| BotState.State.AfterDownload | bot.py:1249-1280 | failed download, cancel or password missing on an encrypted archive ends the unzip task and frees the lock; else extraction goes on |
| BotState.State.AfterExtract | bot.py:1284-1346 | failure or cancel ends the unzip task; otherwise the unzip task is stored with its files and the stats updated; the lock is freed in every case |
| BotState.State.CancelUnzipSession | bot.py:1091-1093 | removes exactly that unzip task |
| BotState.SendOneCheck | bot.py:1456-1479 | expired iff unknown task; not yours iff another user's; the file iff index in range, and then it is that file |
| BotState.SendOneBounds | bot.py:1469-1475 | an index is refused iff it is negative or past the end |
| BotState.ChoiceCheck | bot.py:1919-1948 | expired, not yours or invalid in that order; a download writes `<base>_<name>.mp4` under the temp root |
| BotState.MenuVariants | bot.py:1892-1893 | the menu is never empty and is the parsed list when one exists |
| BotState.State.OfferM3u8Menu | bot.py:1871-1916 | a failed parse offers nothing; otherwise the menu entry is stored, never empty |
| BotState.State.M3u8QualityChoice | bot.py:1919-1983 | a refused choice keeps the table; a failed download or an upload drops the entry; an upload that raises leaves it |
| BotState.ChoiceSingleShot | bot.py:1949-1983 | once the entry is dropped, the choice is expired |
| BotState.MenuFirstChoice | bot.py:1895-1902 | the owner's first button is always a valid choice |
| BotState.ChoiceFileName | bot.py:1887-1948 | for `…/n.m3u8?…` the corrected download is `n_<variant>.mp4` with caption `n [<variant>]` |
| BotBatch.Categorize | bot.py:1651-1662 | each category's list is the links of that category, in order |
| BotBatch.CandidateDirect | bot.py:1664-1668 | the direct candidates are exactly the direct and unknown links |
| BotBatch.CategoriesPartition | bot.py:1651-1662 | the five lists add up to all the links |
| BotBatch.ExactlyOneCategory | bot.py:1651-1662 | a link is in a category's list iff that is its category |
| BotBatch.FirstCancel | bot.py:1716-1717 | the loop stops at the first index whose cancel check holds |
| BotBatch.DirectLoop | bot.py:1715-1776 | attempts the links up to the first cancel; `ok` counts the sent ones and `ok + fail` the attempts |
| BotBatch.GdriveLoop | bot.py:1778-1841 | as the direct loop; a link without a direct URL counts as failed; fetched URLs come from rewrites |
| BotBatch.NoRewriteNoSuccess | bot.py:1782-1785 | with no Drive link rewritten nothing succeeds |
| BotBatch.OfferMenus | bot.py:1844-1848 | offers the m3u8 menus up to the first cancel |
| BotBatch.Menus | bot.py:1844-1848 | every menu offered is non-empty |
| BotBatch.Summary | bot.py:1850-1855 | the reply counts at most as many menus as m3u8 links |
| BotBatch.RunBatch | bot.py:1700-1848 | the three loops in sequence produce `SummaryOf` and store the offered menus |
| BotBatch.LinksDownloadAll | bot.py:1639-1869 | no links iff `NoLinks`; only Telegram links iff `Unsupported`, changing nothing; otherwise the temp root is registered and the batch summary replied; locks and flags untouched |
| BotBatch.SummaryCounts | bot.py:1700-1855 | `ok + fail` equals the attempts, which never exceed the direct and Drive candidates |
| BotBatch.CancelledBatch | bot.py:1716-1717 | when each loop's first cancel check sees the flag raised, nothing is attempted and no menu is offered |
| BotBatch.UncancelledBatch | bot.py:1715-1841 | without cancel (and no Drive link rewritten) every candidate is attempted and `ok` counts the sent direct links |
| BotBatch.AllSentBatch | bot.py:1715-1841 | without cancels, with every direct link sent and no Drive link rewritten, `ok` is the number of direct candidates and `fail` the number of Drive links |
| BotBatch.SupportedIff | bot.py:1670-1675 | unsupported iff every link is a Telegram link |

## Left out

- Telegram I/O is not modelled. Messages, buttons, uploads and progress edits
  are pyrogram calls; their results are parameters.
- The network and tools are not modelled. These are aiohttp, the `m3u8`
  library parser, ffmpeg/ffprobe, `extract_archive`, `detect_encrypted` and
  `get_gdrive_direct_link`. Their outcomes are parameters or oracle functions.
- Float formatting is left out. `human_bytes`'s `:.2f` and the `:.2f` in the
  progress text are not rendered; values are exact reals.
- asyncio interleavings are not modelled. Each method runs as one step, and
  these span several awaits of the source:
  - `BotState.State.M3u8QualityChoice` (bot.py:1947-1983), so two clicks on
    the same quality button can both pass the checks before the pop at
    bot.py:1983;
  - `BotBatch.RunBatch` and `BotBatch.LinksDownloadAll` (bot.py:1684-1868),
    which take no user lock, so a `run_unzip_task` started meanwhile lowers
    the cancel flag (bot.py:1233);
  - `BotState.State.AfterExtract` (bot.py:1343-1344).
- `uuid.uuid4()` values, the `sorted(files, key=str.lower)` order and each
  handler's clock read are parameters.
- Unicode case folding is left out. `str.lower` and `re.IGNORECASE` are ASCII
  only.
- `pathlib`'s `/` is modelled by `os.path.join`, with which it agrees on these
  relative names.
- The `handle_send_all` loop, the `thumb` mode and `pending_password` are not
  modelled. They only forward files or text to Telegram.
- The `handle_extract_audio` lock is not modelled. It is the same `get_lock` as
  the unzip task; only its name helper `AudioFileName` is modelled.
- `LINK_SESSIONS`, the cleaned-URL reply and `server.py` are not modelled; they
  are presentation and a keep-alive web server.
- `count_users` and `get_all_users` are not modelled; they are plain database
  reads.
- Captions on batch uploads are not modelled. `build_caption` is modelled once
  (`BotCaption.CaptionState.BuildCaption`). The uploads of the batch, of
  `send_all` and of the m3u8 choice are outcomes and do not call it.
- The unzip task uses the corrected user lookup (see Findings). The lookup as
  written is modelled beside it, as `Database.GetOrCreateAsWritten`.
- BotState.State.OfferM3u8Menu stores the corrected `BotNames.StreamBaseName`
  (the extension cut off) and not the `[:-6]` name of bot.py:1889-1890, so
  the file name and caption of a chosen quality keep the last letter of the
  playlist name (see Findings); the name as written is
  `BotNames.StreamBaseNameAsWritten`.
- BotBatch.Menus stores the same corrected name, and so do `OfferMenus`,
  `RunBatch` and `LinksDownloadAll`, which build on it.
- Strings.ParseInt accepts only ASCII digits; Python's `int()` also accepts
  other Unicode decimal digits.
- BSON dates keep milliseconds, so a stored `created_at` or `last_task_ts`
  loses its microseconds; the model keeps them exact.
- BotState.State.AfterExtract always updates the stats, while bot.py:1343-1344
  skips `update_user_stats` when the edit of the summary message raises.
- `pending_settings_action` is not modelled. It is popped before the text is
  checked (bot.py:933), so a refused empty caption also ends the settings
  prompt.

## Findings

| source | as written | input that shows it | evidently intended | confidence | as-written member | corrected member |
|---|---|---|---|---|---|---|
| bot.py:1889-1890 | `base_name[:-6]` removes six characters after testing for the five-character `.m3u8` | `https://h/video.m3u8?x` gives base `vide`, file `vide_720p.mp4` | strip the extension only, giving `video` | not executed | BotNames.StreamBaseNameLosesLetter | BotNames.StreamBaseNameOfPlaylist |
| database.py:77-82 | `set_ban` upserts a document without `stats`; `get_or_create_user` then reads `user["stats"]` (line 39) and raises `KeyError` | `/unban 42` (bot.py:762) for a user who never wrote to the bot, then user 42 writes; `/ban 42` does not reach the lookup because `is_banned` is checked first | a lookup that tolerates a missing `stats` and creates fresh ones | not executed | Database.BanUnknownBreaksGet | Database.BanUnknownThenGet |
