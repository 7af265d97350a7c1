/** `handle_links_download_all` of bot.py: the links of a message are sorted
    into the five kinds, direct and unknown links are downloaded one by
    one, then Google Drive links through their direct rewrite, then each
    m3u8 link gets a quality menu. Each loop looks at the user's
    cancellation flag before every item and stops when it is raised.
    Whether an item's download and upload went through, and the flag as
    each check sees it, are given as functions of the item's position. */
module BotBatch {
  import opened Wrappers
  import opened LinkParser
  import opened M3u8Tools
  import opened Database
  import opened BotNames
  import opened BotState

  // ---------------------------------------------------------------------------
  // Categorisation.

  /** The `cats` loop: every link appended to the list of its kind. */
  method Categorize(links: seq<string>) returns (cats: map<Category, seq<string>>)
    ensures HasAllKeys(cats)
    ensures forall k: Category :: cats[k] == FilterCat(Classify, links, k)
  {
    cats := EmptyCats();
    var i := 0;
    while i < |links|
      invariant 0 <= i <= |links|
      invariant HasAllKeys(cats)
      invariant forall k: Category :: cats[k] == FilterCat(Classify, links[..i], k)
    {
      var url := links[i];
      var kind := Classify(url);
      assert links[..i + 1][..i] == links[..i];
      cats := cats[kind := cats[kind] + [url]];
      i := i + 1;
    }
    assert links[..i] == links;
  }

  /** `candidate_direct`: direct links, then unknown ones, each in order. */
  function CandidateDirect(links: seq<string>): (r: seq<string>)
    ensures forall x :: x in r <==> x in links && (Classify(x) == Direct || Classify(x) == Unknown)
  {
    FilterCat(Classify, links, Direct) + FilterCat(Classify, links, Unknown)
  }

  /** The five lists share out the links: their lengths add up to the
      number of links. */
  lemma {:induction false} CategoriesPartition(links: seq<string>)
    ensures |FilterCat(Classify, links, Direct)| + |FilterCat(Classify, links, M3u8)| +
            |FilterCat(Classify, links, Gdrive)| + |FilterCat(Classify, links, Telegram)| +
            |FilterCat(Classify, links, Unknown)| == |links|
  {
    if links != [] {
      CategoriesPartition(links[..|links| - 1]);
    }
  }

  /** A link sits in the list of its own kind and in no other. */
  lemma ExactlyOneCategory(links: seq<string>, x: string, k: Category)
    requires x in links
    ensures x in FilterCat(Classify, links, k) <==> k == Classify(x)
  {
  }

  // ---------------------------------------------------------------------------
  // The loops.

  /** The position of the first check that finds the flag raised, or `n`
      when none does. */
  function FirstCancel(cancelled: nat -> bool, n: nat, i: nat): (r: nat)
    requires i <= n
    ensures i <= r <= n
    ensures r < n ==> cancelled(r)
    ensures forall j :: i <= j < r ==> !cancelled(j)
    decreases n - i
  {
    if i == n || cancelled(i) then i else FirstCancel(cancelled, n, i + 1)
  }

  /** How many of the positions below `n` satisfy `p`. */
  function Successes(p: nat -> bool, n: nat): (r: nat)
    ensures r <= n
  {
    if n == 0 then 0 else Successes(p, n - 1) + (if p(n - 1) then 1 else 0)
  }

  /** Whether the Google Drive link at position `j` was rewritten and then
      fetched and sent. */
  predicate GdriveOk(urls: seq<string>, rewrite: string -> Option<string>, sent: nat -> bool, j: nat) {
    j < |urls| && rewrite(urls[j]).Some? && sent(j)
  }

  /** `GdriveOk` as a function of the position. */
  function GdriveSent(urls: seq<string>, rewrite: string -> Option<string>, sent: nat -> bool): nat -> bool {
    (j: nat) => GdriveOk(urls, rewrite, sent, j)
  }

  /** The direct and unknown loop: each attempted link counts once, as a
      success when its download and upload went through, else as a
      failure. */
  method DirectLoop(urls: seq<string>, cancelled: nat -> bool, sent: nat -> bool)
    returns (attempted: nat, ok: nat, fail: nat)
    ensures attempted == FirstCancel(cancelled, |urls|, 0)
    ensures ok == Successes(sent, attempted)
    ensures ok + fail == attempted
  {
    ok, fail := 0, 0;
    var i := 0;
    while i < |urls|
      invariant 0 <= i <= |urls|
      invariant FirstCancel(cancelled, |urls|, i) == FirstCancel(cancelled, |urls|, 0)
      invariant ok == Successes(sent, i)
      invariant ok + fail == i
    {
      if cancelled(i) {
        break;
      }
      if sent(i) {
        ok := ok + 1;
      } else {
        fail := fail + 1;
      }
      i := i + 1;
    }
    attempted := i;
  }

  /** The Google Drive loop: a link without a direct rewrite is a failure
      and is not downloaded; the others count as the direct ones do. */
  method GdriveLoop(urls: seq<string>, cancelled: nat -> bool, rewrite: string -> Option<string>, sent: nat -> bool)
    returns (attempted: nat, ok: nat, fail: nat, fetched: seq<string>)
    ensures attempted == FirstCancel(cancelled, |urls|, 0)
    ensures ok == Successes(GdriveSent(urls, rewrite, sent), attempted)
    ensures ok + fail == attempted
    ensures forall u :: u in fetched ==> exists j :: 0 <= j < attempted && rewrite(urls[j]) == Some(u)
  {
    ok, fail := 0, 0;
    fetched := [];
    var i := 0;
    while i < |urls|
      invariant 0 <= i <= |urls|
      invariant FirstCancel(cancelled, |urls|, i) == FirstCancel(cancelled, |urls|, 0)
      invariant ok == Successes(GdriveSent(urls, rewrite, sent), i)
      invariant ok + fail == i
      invariant FetchedFrom(fetched, urls, rewrite, i)
    {
      if cancelled(i) {
        break;
      }
      GdriveStep(urls, rewrite, sent, i);
      var directUrl := rewrite(urls[i]);
      if directUrl.None? {
        FetchedGrows(fetched, urls, rewrite, i);
        fail := fail + 1;
        i := i + 1;
        continue;
      }
      FetchedAppend(fetched, urls, rewrite, i);
      fetched := fetched + [directUrl.value];
      if sent(i) {
        ok := ok + 1;
      } else {
        fail := fail + 1;
      }
      i := i + 1;
    }
    attempted := i;
  }

  /** Every fetched URL is the rewrite of one of the first `n` links. */
  predicate FetchedFrom(fetched: seq<string>, urls: seq<string>, rewrite: string -> Option<string>, n: nat)
    requires n <= |urls|
  {
    forall u :: u in fetched ==> exists j :: 0 <= j < n && rewrite(urls[j]) == Some(u)
  }

  lemma FetchedGrows(fetched: seq<string>, urls: seq<string>, rewrite: string -> Option<string>, i: nat)
    requires i < |urls| && FetchedFrom(fetched, urls, rewrite, i)
    ensures FetchedFrom(fetched, urls, rewrite, i + 1)
  {
  }

  lemma FetchedAppend(fetched: seq<string>, urls: seq<string>, rewrite: string -> Option<string>, i: nat)
    requires i < |urls| && FetchedFrom(fetched, urls, rewrite, i) && rewrite(urls[i]).Some?
    ensures FetchedFrom(fetched + [rewrite(urls[i]).value], urls, rewrite, i + 1)
  {
    forall u | u in fetched + [rewrite(urls[i]).value]
      ensures exists j :: 0 <= j < i + 1 && rewrite(urls[j]) == Some(u)
    {
      if u !in fetched {
        assert rewrite(urls[i]) == Some(u);
      }
    }
  }

  /** One more Google Drive link: it is a success exactly when it was
      rewritten and sent. */
  lemma GdriveStep(urls: seq<string>, rewrite: string -> Option<string>, sent: nat -> bool, i: nat)
    requires i < |urls|
    ensures Successes(GdriveSent(urls, rewrite, sent), i + 1)
         == Successes(GdriveSent(urls, rewrite, sent), i) + (if rewrite(urls[i]).Some? && sent(i) then 1 else 0)
  {
  }

  /** Google Drive links that cannot be rewritten all fail and nothing is
      fetched for them. */
  lemma {:induction false} NoRewriteNoSuccess(urls: seq<string>, rewrite: string -> Option<string>, sent: nat -> bool, n: nat)
    requires n <= |urls|
    requires forall j :: 0 <= j < n ==> rewrite(urls[j]).None?
    ensures Successes(GdriveSent(urls, rewrite, sent), n) == 0
  {
    if n > 0 {
      NoRewriteNoSuccess(urls, rewrite, sent, n - 1);
    }
  }

  /** When every item goes through, every attempted item is a success. */
  lemma {:induction false} AllSent(sent: nat -> bool, n: nat)
    requires forall j :: 0 <= j < n ==> sent(j)
    ensures Successes(sent, n) == n
  {
    if n > 0 {
      AllSent(sent, n - 1);
    }
  }

  /** The menus stored for the first `n` m3u8 links. */
  function Menus(m: map<string, M3u8Task>, userId: int, urls: seq<string>, parse: string -> Option<seq<Variant>>,
                 tempRoot: string, taskIds: nat -> string, n: nat): (r: map<string, M3u8Task>)
    requires n <= |urls|
    requires MenusNonEmpty(m)
    ensures MenusNonEmpty(r)
  {
    if n == 0 then m
    else
      var before := Menus(m, userId, urls, parse, tempRoot, taskIds, n - 1);
      var url := urls[n - 1];
      if parse(url).None? then before
      else before[taskIds(n - 1) := M3u8Task(userId, url, MenuVariants(url, parse(url).value), tempRoot, StreamBaseName(url))]
  }

  /** The m3u8 loop: one menu offered per link until the flag is raised. */
  method OfferMenus(state: State, userId: int, urls: seq<string>, cancelled: nat -> bool,
                    parse: string -> Option<seq<Variant>>, tempRoot: string, taskIds: nat -> string)
    returns (attempted: nat)
    requires state.Valid()
    modifies state
    ensures state.Valid()
    ensures attempted == FirstCancel(cancelled, |urls|, 0)
    ensures state.m3u8Tasks == Menus(old(state.m3u8Tasks), userId, urls, parse, tempRoot, taskIds, attempted)
    ensures state.userLocks == old(state.userLocks) && state.lockCount == old(state.lockCount)
    ensures state.held == old(state.held) && state.userCancelled == old(state.userCancelled)
    ensures state.tasks == old(state.tasks)
  {
    var i := 0;
    while i < |urls|
      invariant 0 <= i <= |urls|
      invariant state.Valid()
      invariant FirstCancel(cancelled, |urls|, i) == FirstCancel(cancelled, |urls|, 0)
      invariant state.m3u8Tasks == Menus(old(state.m3u8Tasks), userId, urls, parse, tempRoot, taskIds, i)
      invariant state.userLocks == old(state.userLocks) && state.lockCount == old(state.lockCount)
      invariant state.held == old(state.held) && state.userCancelled == old(state.userCancelled)
      invariant state.tasks == old(state.tasks)
    {
      if cancelled(i) {
        break;
      }
      var _ := state.OfferM3u8Menu(userId, urls[i], parse(urls[i]), tempRoot, taskIds(i));
      i := i + 1;
    }
    attempted := i;
  }

  // ---------------------------------------------------------------------------
  // The handler.

  datatype LinksReply = NoLinks | Unsupported | Done(ok: nat, fail: nat, menus: nat)

  /** The outcomes `handle_links_download_all` depends on: the flag as each
      loop's checks see it, whether each item's transfer went through, the
      Google Drive rewrite, the parsed playlists and the new menu ids. */
  datatype Outcomes = Outcomes(
    cancelDirect: nat -> bool, sentDirect: nat -> bool,
    cancelGdrive: nat -> bool, rewrite: string -> Option<string>, sentGdrive: nat -> bool,
    cancelM3u8: nat -> bool, parse: string -> Option<seq<Variant>>, taskIds: nat -> string)

  /** Some link can be downloaded or offered. */
  predicate Supported(links: seq<string>) {
    CandidateDirect(links) != [] || FilterCat(Classify, links, M3u8) != [] || FilterCat(Classify, links, Gdrive) != []
  }

  /** The links the direct loop tries and the Google Drive links that
      could be attempted. */
  function DirectAttempts(links: seq<string>, o: Outcomes): nat {
    FirstCancel(o.cancelDirect, |CandidateDirect(links)|, 0)
  }

  function GdriveAttempts(links: seq<string>, o: Outcomes): nat {
    FirstCancel(o.cancelGdrive, |FilterCat(Classify, links, Gdrive)|, 0)
  }

  /** The summary of a batch over the three lists: successes of both
      loops, the remaining attempts as failures, and the number of menus
      tried. */
  function SummaryOf(direct: seq<string>, gdrive: seq<string>, m3u8: seq<string>, o: Outcomes): (r: LinksReply)
    ensures r.Done? && r.menus <= |m3u8|
  {
    var nd := FirstCancel(o.cancelDirect, |direct|, 0);
    var ng := FirstCancel(o.cancelGdrive, |gdrive|, 0);
    var okD := Successes(o.sentDirect, nd);
    var okG := Successes(GdriveSent(gdrive, o.rewrite, o.sentGdrive), ng);
    Done(okD + okG, (nd - okD) + (ng - okG), FirstCancel(o.cancelM3u8, |m3u8|, 0))
  }

  /** The summary of a batch over a message's links. */
  function Summary(links: seq<string>, o: Outcomes): (r: LinksReply)
    ensures r.Done? && r.menus <= |FilterCat(Classify, links, M3u8)|
  {
    SummaryOf(CandidateDirect(links), FilterCat(Classify, links, Gdrive), FilterCat(Classify, links, M3u8), o)
  }

  /** The three loops in turn. */
  method RunBatch(state: State, userId: int, direct: seq<string>, gdrive: seq<string>, m3u8: seq<string>,
                  tempRoot: string, o: Outcomes)
    returns (reply: LinksReply)
    requires state.Valid()
    modifies state
    ensures state.Valid()
    ensures reply == SummaryOf(direct, gdrive, m3u8, o)
    ensures state.m3u8Tasks == Menus(old(state.m3u8Tasks), userId, m3u8, o.parse, tempRoot, o.taskIds, reply.menus)
    ensures state.userLocks == old(state.userLocks) && state.held == old(state.held)
    ensures state.userCancelled == old(state.userCancelled) && state.tasks == old(state.tasks)
  {
    var nd, okD, failD := DirectLoop(direct, o.cancelDirect, o.sentDirect);
    var ng, okG, failG, _ := GdriveLoop(gdrive, o.cancelGdrive, o.rewrite, o.sentGdrive);
    var nm := OfferMenus(state, userId, m3u8, o.cancelM3u8, o.parse, tempRoot, o.taskIds);
    return Done(okD + okG, failD + failG, nm);
  }

  /** Every attempted link is counted exactly once, as a success or as a
      failure; no more links are attempted than there are. */
  lemma SummaryCounts(links: seq<string>, o: Outcomes)
    ensures Summary(links, o).ok + Summary(links, o).fail == DirectAttempts(links, o) + GdriveAttempts(links, o)
    ensures DirectAttempts(links, o) + GdriveAttempts(links, o) <=
      |FilterCat(Classify, links, Direct)| + |FilterCat(Classify, links, Unknown)| + |FilterCat(Classify, links, Gdrive)|
  {
  }

  /** When each loop's first cancel check sees the flag raised, nothing is
      attempted and no menu is offered. */
  lemma CancelledBatch(links: seq<string>, o: Outcomes)
    requires o.cancelDirect(0) && o.cancelGdrive(0) && o.cancelM3u8(0)
    ensures Summary(links, o) == Done(0, 0, 0)
  {
  }

  /** Without a raised flag, every candidate is attempted, and Google Drive
      links without a rewrite are all failures. */
  lemma UncancelledBatch(links: seq<string>, o: Outcomes)
    requires forall j: nat :: !o.cancelDirect(j) && !o.cancelGdrive(j)
    requires forall x :: x in links && Classify(x) == Gdrive ==> o.rewrite(x).None?
    ensures Summary(links, o).ok == Successes(o.sentDirect, |CandidateDirect(links)|)
    ensures Summary(links, o).ok + Summary(links, o).fail == |CandidateDirect(links)| + |FilterCat(Classify, links, Gdrive)|
  {
    var gdrive := FilterCat(Classify, links, Gdrive);
    FirstCancelNone(o.cancelDirect, |CandidateDirect(links)|, 0);
    FirstCancelNone(o.cancelGdrive, |gdrive|, 0);
    forall j | 0 <= j < |gdrive|
      ensures o.rewrite(gdrive[j]).None?
    {
      assert gdrive[j] in gdrive;
    }
    NoRewriteNoSuccess(gdrive, o.rewrite, o.sentGdrive, |gdrive|);
  }

  /** Without a raised flag, with every direct link sent and no Google
      Drive link rewritten, every direct candidate succeeds and the failures
      are exactly the Google Drive links. */
  lemma AllSentBatch(links: seq<string>, o: Outcomes)
    requires forall j: nat :: !o.cancelDirect(j) && !o.cancelGdrive(j)
    requires forall x :: x in links && Classify(x) == Gdrive ==> o.rewrite(x).None?
    requires forall j: nat :: o.sentDirect(j)
    ensures Summary(links, o).ok == |CandidateDirect(links)|
    ensures Summary(links, o).fail == |FilterCat(Classify, links, Gdrive)|
  {
    UncancelledBatch(links, o);
    AllSent(o.sentDirect, |CandidateDirect(links)|);
  }

  /** With no raised flag at all, a loop runs to the end. */
  lemma {:induction false} FirstCancelNone(cancelled: nat -> bool, n: nat, i: nat)
    requires i <= n
    requires forall j: nat :: !cancelled(j)
    ensures FirstCancel(cancelled, n, i) == n
    decreases n - i
  {
    if i < n {
      FirstCancelNone(cancelled, n, i + 1);
    }
  }

  /** A message is unsupported exactly when all its links are Telegram
      links. */
  lemma SupportedIff(links: seq<string>)
    ensures !Supported(links) <==> forall x :: x in links ==> Classify(x) == Telegram
  {
    if !Supported(links) {
      NoneSupported(links);
    } else if links != [] {
      OnlyTelegram(links);
    }
  }

  /** Nothing is done for a message without links or without supported
      links; otherwise a temporary directory is registered, the three
      loops run in turn, and the reply sums up successes and failures. */
  method LinksDownloadAll(state: State, temps: TempStore, userId: int, links: seq<string>,
                          tempRoot: string, ttlMin: int, now: int, o: Outcomes)
    returns (reply: LinksReply)
    requires state.Valid() && temps.Valid()
    modifies state, temps
    ensures state.Valid() && temps.Valid()
    ensures reply == NoLinks <==> links == []
    ensures reply == Unsupported <==> links != [] && !Supported(links)
    ensures !reply.Done? ==> temps.records == old(temps.records) && state.m3u8Tasks == old(state.m3u8Tasks)
    ensures reply.Done? ==>
      && reply == Summary(links, o)
      && temps.records == old(temps.records) + [TempRecord(old(temps.nextId), userId, tempRoot, now, ttlMin)]
      && state.m3u8Tasks == Menus(old(state.m3u8Tasks), userId, FilterCat(Classify, links, M3u8), o.parse, tempRoot, o.taskIds, reply.menus)
    ensures state.userLocks == old(state.userLocks) && state.held == old(state.held)
    ensures state.userCancelled == old(state.userCancelled) && state.tasks == old(state.tasks)
  {
    if links == [] {
      return NoLinks;
    }
    var cats := Categorize(links);
    var candidates := cats[Direct] + cats[Unknown];
    var gdrive := cats[Gdrive];
    var m3u8 := cats[M3u8];
    assert candidates == CandidateDirect(links);
    assert gdrive == FilterCat(Classify, links, Gdrive);
    assert m3u8 == FilterCat(Classify, links, M3u8);
    if candidates == [] && m3u8 == [] && gdrive == [] {
      return Unsupported;
    }
    temps.RegisterTempPath(userId, tempRoot, ttlMin, now);
    reply := RunBatch(state, userId, candidates, gdrive, m3u8, tempRoot, o);
  }

  /** When the supported lists are all empty, every link is a Telegram link. */
  lemma NoneSupported(links: seq<string>)
    requires !Supported(links)
    ensures forall x :: x in links ==> Classify(x) == Telegram
  {
    forall x | x in links
      ensures Classify(x) == Telegram
    {
      assert x !in FilterCat(Classify, links, Classify(x)) || Classify(x) == Telegram;
    }
  }

  /** A supported link rules out a message of Telegram links only. */
  lemma OnlyTelegram(links: seq<string>)
    requires Supported(links)
    ensures !(forall x :: x in links ==> Classify(x) == Telegram)
  {
    var s := if CandidateDirect(links) != [] then CandidateDirect(links)
             else if FilterCat(Classify, links, M3u8) != [] then FilterCat(Classify, links, M3u8)
             else FilterCat(Classify, links, Gdrive);
    assert s[0] in s;
  }
}
