/** The in-memory orchestration state of bot.py: the per-user locks, the
    cancellation flags, the `tasks` table of finished extractions and the
    `M3U8_TASKS` table of pending quality menus, with the handlers that
    read and update them. A handler that awaits is cut at its awaits into
    steps, so that other handlers (a `/cancel`, a second archive) can run
    in between; Telegram replies, downloads and the archive tools are
    outcomes passed in. */
module BotState {
  import opened Wrappers
  import opened PosixPath
  import opened M3u8Tools
  import opened BotNames
  import opened Database

  /** One `tasks` entry: the extracted files of an archive, offered as
      buttons to their owner. */
  datatype UnzipTask = UnzipTask(userId: int, baseDir: string, files: seq<string>, archiveName: string)

  /** One `M3U8_TASKS` entry: the variants offered for one stream. */
  datatype M3u8Task = M3u8Task(userId: int, url: string, variants: seq<Variant>, tempRoot: string, baseName: string)

  /** How a step of `run_unzip_task` ends. `Downloading` and `Extracting`
      mean that the unzip task goes on holding the lock. */
  datatype UnzipOutcome =
    | Busy
    | Downloading
    | DownloadFailed
    | Cancelled
    | NeedsPassword
    | Extracting
    | ExtractFailed
    | CancelledMidway
    | Extracted(taskId: string)

  /** `user_cancelled.get(user_id)`: a missing flag is false. */
  predicate CancelRequested(flags: map<int, bool>, userId: int) {
    userId in flags && flags[userId]
  }

  // ---------------------------------------------------------------------------
  // `handle_send_one`'s checks.

  datatype SendOneReply = TaskExpired | NotYours | InvalidIndex | SendFile(rel: string)

  /** The answer to a `sendone|<task>|<index>` button. */
  function SendOneCheck(tasks: map<string, UnzipTask>, taskId: string, userId: int, index: int): (r: SendOneReply)
    ensures r.TaskExpired? <==> taskId !in tasks
    ensures r.NotYours? <==> taskId in tasks && tasks[taskId].userId != userId
    ensures r.SendFile? <==>
      taskId in tasks && tasks[taskId].userId == userId && 0 <= index < |tasks[taskId].files|
    ensures r.SendFile? ==> r.rel == tasks[taskId].files[index]
  {
    if taskId !in tasks then TaskExpired
    else
      var info := tasks[taskId];
      if userId != info.userId then NotYours
      else if index < 0 || index >= |info.files| then InvalidIndex
      else SendFile(info.files[index])
  }

  // ---------------------------------------------------------------------------
  // `handle_m3u8_quality_choice`'s checks.

  datatype ChoiceGate = ChoiceExpired | ChoiceNotYours | InvalidSelection | Download(variant: Variant, dest: string, caption: string)

  /** The answer to an `m3q|<task>|<index>` button before any download: the
      chosen variant, the file it is saved to and the base caption that is
      then passed through `build_caption`. */
  function ChoiceCheck(m3u8Tasks: map<string, M3u8Task>, taskId: string, userId: int, index: int): (r: ChoiceGate)
    ensures r.ChoiceExpired? <==> taskId !in m3u8Tasks
    ensures r.ChoiceNotYours? <==> taskId in m3u8Tasks && m3u8Tasks[taskId].userId != userId
    ensures r.Download? <==>
      taskId in m3u8Tasks && m3u8Tasks[taskId].userId == userId && 0 <= index < |m3u8Tasks[taskId].variants|
    ensures r.Download? ==>
      var t := m3u8Tasks[taskId];
      r.variant == t.variants[index] &&
      r.dest == Join(t.tempRoot, t.baseName + "_" + t.variants[index].name + ".mp4") &&
      r.caption == t.baseName + " [" + t.variants[index].name + "]"
  {
    if taskId !in m3u8Tasks then ChoiceExpired
    else
      var info := m3u8Tasks[taskId];
      if userId != info.userId then ChoiceNotYours
      else if index < 0 || index >= |info.variants| then InvalidSelection
      else
        var v := info.variants[index];
        Download(v, Join(info.tempRoot, info.baseName + "_" + v.name + ".mp4"), info.baseName + " [" + v.name + "]")
  }

  datatype ChoiceReply = Refused(gate: ChoiceGate) | StreamFailed | UploadRaised | Uploaded(dest: string, caption: string)

  /** The variants a menu offers: the parsed ones, or `Auto` for the URL
      itself when there are none. */
  function MenuVariants(url: string, parsed: seq<Variant>): (r: seq<Variant>)
    ensures r != []
    ensures parsed != [] ==> r == parsed
  {
    if parsed == [] then [Variant("Auto", url)] else parsed
  }

  /** Every offered menu has at least one variant. */
  predicate MenusNonEmpty(m3u8Tasks: map<string, M3u8Task>) {
    forall t :: t in m3u8Tasks ==> m3u8Tasks[t].variants != []
  }

  /** The module-level dictionaries of bot.py. A lock is a number, fresh for
      each user; `held` holds the locks some task is inside of. */
  class State {
    var userLocks: map<int, nat>
    var lockCount: nat
    var held: set<nat>
    var userCancelled: map<int, bool>
    var tasks: map<string, UnzipTask>
    var m3u8Tasks: map<string, M3u8Task>

    /** Locks are numbered below `lockCount`, one per user, and only
        existing locks are held. */
    predicate Valid()
      reads this
    {
      && (forall u :: u in userLocks ==> userLocks[u] < lockCount)
      && (forall u, v :: u in userLocks && v in userLocks && u != v ==> userLocks[u] != userLocks[v])
      && (forall l :: l in held ==> l < lockCount)
      && MenusNonEmpty(m3u8Tasks)
    }

    constructor()
      ensures Valid()
      ensures userLocks == map[] && lockCount == 0 && held == {}
      ensures userCancelled == map[] && tasks == map[] && m3u8Tasks == map[]
    {
      userLocks := map[];
      lockCount := 0;
      held := {};
      userCancelled := map[];
      tasks := map[];
      m3u8Tasks := map[];
    }

    /** `get_lock`: a user's lock is created on first use and the same lock
        is returned ever after; no two users share one. */
    method GetLock(userId: int) returns (lock: nat)
      requires Valid()
      modifies this
      ensures Valid()
      ensures userId in userLocks && userLocks[userId] == lock
      ensures userId in old(userLocks) ==>
        lock == old(userLocks)[userId] && userLocks == old(userLocks) && lockCount == old(lockCount)
      ensures userId !in old(userLocks) ==>
        lock == old(lockCount) && userLocks == old(userLocks)[userId := lock] && lockCount == old(lockCount) + 1
      ensures forall u :: u in old(userLocks) && u != userId ==> userLocks[u] != lock
      ensures held == old(held) && userCancelled == old(userCancelled)
      ensures tasks == old(tasks) && m3u8Tasks == old(m3u8Tasks)
    {
      if userId !in userLocks {
        userLocks := userLocks[userId := lockCount];
        lockCount := lockCount + 1;
      }
      lock := userLocks[userId];
    }

    /** `/cancel`: the user's flag is raised. */
    method CancelCmd(userId: int)
      requires Valid()
      modifies this
      ensures Valid()
      ensures userCancelled == old(userCancelled)[userId := true]
      ensures userLocks == old(userLocks) && lockCount == old(lockCount) && held == old(held)
      ensures tasks == old(tasks) && m3u8Tasks == old(m3u8Tasks)
    {
      userCancelled := userCancelled[userId := true];
    }

    /** `run_unzip_task` up to the download: a user whose lock is held is
        told to wait and nothing else happens; otherwise the lock is taken,
        the flag is lowered, the user record is fetched and the temporary
        directory is registered before anything is downloaded. */
    method StartUnzipTask(userId: int, tempRoot: string, ttlMin: int, now: int, today: string,
                          autoDeleteMin: int, temps: TempStore, users: UserStore)
      returns (outcome: UnzipOutcome)
      requires Valid() && temps.Valid()
      modifies this, temps, users
      ensures Valid() && temps.Valid()
      ensures outcome == Busy || outcome == Downloading
      ensures userId in userLocks
      ensures userId in old(userLocks) ==> userLocks == old(userLocks) && lockCount == old(lockCount)
      ensures userId !in old(userLocks) ==>
        userLocks == old(userLocks)[userId := old(lockCount)] && lockCount == old(lockCount) + 1
      ensures outcome == Busy <==> userId in old(userLocks) && old(userLocks)[userId] in old(held)
      ensures outcome == Busy ==>
        held == old(held) && userCancelled == old(userCancelled) &&
        temps.records == old(temps.records) && users.users == old(users.users)
      ensures outcome == Downloading ==>
        held == old(held) + {userLocks[userId]} &&
        userCancelled == old(userCancelled)[userId := false] &&
        users.users == GetOrCreate(old(users.users), userId, today, autoDeleteMin).1 &&
        temps.records == old(temps.records) + [TempRecord(old(temps.nextId), userId, tempRoot, now, ttlMin)]
      ensures tasks == old(tasks) && m3u8Tasks == old(m3u8Tasks)
    {
      var lock := GetLock(userId);
      if lock in held {
        return Busy;
      }
      held := held + {lock};
      userCancelled := userCancelled[userId := false];
      var _ := users.GetOrCreateUser(userId, today, autoDeleteMin);
      temps.RegisterTempPath(userId, tempRoot, ttlMin, now);
      return Downloading;
    }

    /** `run_unzip_task` once the download has returned: a failed
        download, a raised flag or a protected archive without a password
        ends the unzip task and frees the lock. */
    method AfterDownload(userId: int, downloaded: bool, encrypted: bool, hasPassword: bool)
      returns (outcome: UnzipOutcome)
      requires Valid() && userId in userLocks
      modifies this
      ensures Valid()
      ensures outcome ==
        if !downloaded then DownloadFailed
        else if CancelRequested(userCancelled, userId) then Cancelled
        else if !hasPassword && encrypted then NeedsPassword
        else Extracting
      ensures outcome == Extracting ==> held == old(held)
      ensures outcome != Extracting ==> held == old(held) - {old(userLocks)[userId]}
      ensures userLocks == old(userLocks) && lockCount == old(lockCount)
      ensures userCancelled == old(userCancelled) && tasks == old(tasks) && m3u8Tasks == old(m3u8Tasks)
    {
      var lock := userLocks[userId];
      if !downloaded {
        outcome := DownloadFailed;
      } else if userId in userCancelled && userCancelled[userId] {
        outcome := Cancelled;
      } else if !hasPassword && encrypted {
        outcome := NeedsPassword;
      } else {
        return Extracting;
      }
      held := held - {lock};
    }

    /** `run_unzip_task` once extraction has returned: unless it failed or
        the flag was raised meanwhile, the files are stored as a new task
        and the user's daily counter goes up. The lock is freed. */
    method AfterExtract(userId: int, extracted: Option<seq<string>>, taskId: string, baseDir: string,
                        archiveName: string, sizeMb: real, now: int, users: UserStore)
      returns (outcome: UnzipOutcome)
      requires Valid() && userId in userLocks
      modifies this, users
      ensures Valid()
      ensures outcome ==
        if extracted.None? then ExtractFailed
        else if CancelRequested(userCancelled, userId) then CancelledMidway
        else Extracted(taskId)
      ensures outcome.Extracted? ==>
        tasks == old(tasks)[taskId := UnzipTask(userId, baseDir, extracted.value, archiveName)] &&
        users.users == UpdateUserStats(old(users.users), userId, sizeMb, now)
      ensures !outcome.Extracted? ==> tasks == old(tasks) && users.users == old(users.users)
      ensures held == old(held) - {old(userLocks)[userId]}
      ensures userLocks == old(userLocks) && lockCount == old(lockCount)
      ensures userCancelled == old(userCancelled) && m3u8Tasks == old(m3u8Tasks)
    {
      var lock := userLocks[userId];
      held := held - {lock};
      if extracted.None? {
        return ExtractFailed;
      }
      if userId in userCancelled && userCancelled[userId] {
        return CancelledMidway;
      }
      tasks := tasks[taskId := UnzipTask(userId, baseDir, extracted.value, archiveName)];
      users.UpdateStats(userId, sizeMb, now);
      return Extracted(taskId);
    }

    /** The `ucancel|<task>` button: the unzip task is forgotten. */
    method CancelUnzipSession(taskId: string)
      requires Valid()
      modifies this
      ensures Valid()
      ensures tasks == old(tasks) - {taskId}
      ensures userLocks == old(userLocks) && lockCount == old(lockCount) && held == old(held)
      ensures userCancelled == old(userCancelled) && m3u8Tasks == old(m3u8Tasks)
    {
      tasks := tasks - {taskId};
    }

    /** `offer_m3u8_quality_menu`: unless the playlist could not be parsed,
        a menu of its variants is stored under a new task id, named after
        the playlist file. */
    method OfferM3u8Menu(userId: int, url: string, parsed: Option<seq<Variant>>, tempRoot: string, taskId: string)
      returns (offered: bool)
      requires Valid()
      modifies this
      ensures Valid()
      ensures offered <==> parsed.Some?
      ensures offered ==>
        m3u8Tasks == old(m3u8Tasks)[taskId := M3u8Task(userId, url, MenuVariants(url, parsed.value), tempRoot, StreamBaseName(url))]
      ensures !offered ==> m3u8Tasks == old(m3u8Tasks)
      ensures userLocks == old(userLocks) && lockCount == old(lockCount) && held == old(held)
      ensures userCancelled == old(userCancelled) && tasks == old(tasks)
    {
      if parsed.None? {
        return false;
      }
      var variants := parsed.value;
      if variants == [] {
        variants := [Variant("Auto", url)];
      }
      m3u8Tasks := m3u8Tasks[taskId := M3u8Task(userId, url, variants, tempRoot, StreamBaseName(url))];
      return true;
    }

    /** `handle_m3u8_quality_choice`: a refused button leaves the menu;
        a finished upload or a failed download removes it, so that it
        serves once; an upload that raises leaves it in place. */
    method M3u8QualityChoice(taskId: string, userId: int, index: int, downloaded: bool, uploaded: bool)
      returns (r: ChoiceReply)
      requires Valid()
      modifies this
      ensures Valid()
      ensures var gate := ChoiceCheck(old(m3u8Tasks), taskId, userId, index);
        (!gate.Download? ==> r == Refused(gate) && m3u8Tasks == old(m3u8Tasks)) &&
        (gate.Download? && !downloaded ==> r == StreamFailed && m3u8Tasks == old(m3u8Tasks) - {taskId}) &&
        (gate.Download? && downloaded && !uploaded ==> r == UploadRaised && m3u8Tasks == old(m3u8Tasks)) &&
        (gate.Download? && downloaded && uploaded ==>
           r == Uploaded(gate.dest, gate.caption) && m3u8Tasks == old(m3u8Tasks) - {taskId})
      ensures userLocks == old(userLocks) && lockCount == old(lockCount) && held == old(held)
      ensures userCancelled == old(userCancelled) && tasks == old(tasks)
    {
      var gate := ChoiceCheck(m3u8Tasks, taskId, userId, index);
      if !gate.Download? {
        return Refused(gate);
      }
      if !downloaded {
        m3u8Tasks := m3u8Tasks - {taskId};
        return StreamFailed;
      }
      if !uploaded {
        return UploadRaised;
      }
      m3u8Tasks := m3u8Tasks - {taskId};
      return Uploaded(gate.dest, gate.caption);
    }
  }

  /** Once a menu has served (or its stream failed), the same button is
      answered as expired. */
  lemma ChoiceSingleShot(m3u8Tasks: map<string, M3u8Task>, taskId: string, userId: int, index: int)
    ensures ChoiceCheck(m3u8Tasks - {taskId}, taskId, userId, index) == ChoiceExpired
  {
  }

  /** A stored menu accepts exactly the indices of its variants, and since
      menus are never empty, index 0 always works for the owner. */
  lemma MenuFirstChoice(m3u8Tasks: map<string, M3u8Task>, taskId: string, userId: int)
    requires MenusNonEmpty(m3u8Tasks)
    requires taskId in m3u8Tasks && m3u8Tasks[taskId].userId == userId
    ensures ChoiceCheck(m3u8Tasks, taskId, userId, 0).Download?
  {
  }

  /** A menu for a playlist named `<n>.m3u8` saves the chosen variant as
      `<tempRoot>/<n>_<label>.mp4`. */
  lemma ChoiceFileName(userId: int, dir: string, n: string, q: string, parsed: seq<Variant>, tempRoot: string,
                       taskId: string, index: int)
    requires '?' !in dir && '#' !in dir
    requires n != [] && '/' !in n && '?' !in n && '#' !in n
    requires 0 <= index < |parsed|
    ensures var url := dir + "/" + n + ".m3u8" + "?" + q;
      var m := map[taskId := M3u8Task(userId, url, MenuVariants(url, parsed), tempRoot, StreamBaseName(url))];
      ChoiceCheck(m, taskId, userId, index) ==
        Download(parsed[index], Join(tempRoot, n + "_" + parsed[index].name + ".mp4"), n + " [" + parsed[index].name + "]")
  {
    StreamBaseNameOfPlaylist(dir, n, q);
  }

  /** The send-one check accepts exactly the indices of the unzip task's files. */
  lemma SendOneBounds(tasks: map<string, UnzipTask>, taskId: string, userId: int, index: int)
    requires taskId in tasks && tasks[taskId].userId == userId
    ensures SendOneCheck(tasks, taskId, userId, index) == InvalidIndex <==>
      index < 0 || index >= |tasks[taskId].files|
  {
  }
}
