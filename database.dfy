/** The record-level logic of database.py over an in-memory store: the
    temp-path registry swept by time-to-live, and the user documents with
    their daily counters. Times are parameters: `datetime` values are whole
    microseconds, dates their ISO text. */
module Database {
  import opened Wrappers

  // ---------------------------------------------------------------------------
  // Temp-path registry (`temp_files`).

  const MinuteMicros: int := 60 * 1000 * 1000

  /** One `temp_files` document; `id` stands for its `_id`. */
  datatype TempRecord = TempRecord(id: nat, userId: int, path: string, createdAt: int, ttlMin: int)

  /** `created_at + timedelta(minutes=ttl_min) <= now`. */
  predicate Expired(r: TempRecord, now: int) {
    r.createdAt + r.ttlMin * MinuteMicros <= now
  }

  /** Ids grow along the collection, as insertion hands them out. */
  predicate IdsIncreasing(rs: seq<TempRecord>) {
    forall i, j :: 0 <= i < j < |rs| ==> rs[i].id < rs[j].id
  }

  predicate IdsBelow(rs: seq<TempRecord>, bound: int) {
    forall i :: 0 <= i < |rs| ==> rs[i].id < bound
  }

  /** The ids of the expired records, in scan order. */
  function ExpiredIds(rs: seq<TempRecord>, now: int): seq<nat> {
    if rs == [] then []
    else
      var last := rs[|rs| - 1];
      ExpiredIds(rs[..|rs| - 1], now) + (if Expired(last, now) then [last.id] else [])
  }

  /** The paths of the expired records, in scan order. */
  function ExpiredPaths(rs: seq<TempRecord>, now: int): seq<string> {
    if rs == [] then []
    else
      var last := rs[|rs| - 1];
      ExpiredPaths(rs[..|rs| - 1], now) + (if Expired(last, now) then [last.path] else [])
  }

  /** The records still alive at `now`, in order. */
  function LiveRecords(rs: seq<TempRecord>, now: int): seq<TempRecord> {
    if rs == [] then []
    else
      var last := rs[|rs| - 1];
      LiveRecords(rs[..|rs| - 1], now) + (if Expired(last, now) then [] else [last])
  }

  /** `delete_many({"_id": {"$in": ids}})`. */
  function Without(rs: seq<TempRecord>, ids: seq<nat>): seq<TempRecord> {
    if rs == [] then []
    else
      var last := rs[|rs| - 1];
      Without(rs[..|rs| - 1], ids) + (if last.id in ids then [] else [last])
  }

  /** The registry and the id the next insertion receives. */
  class TempStore {
    var records: seq<TempRecord>
    var nextId: nat

    predicate Valid()
      reads this
    {
      IdsIncreasing(records) && IdsBelow(records, nextId)
    }

    constructor()
      ensures Valid() && records == [] && nextId == 0
    {
      records := [];
      nextId := 0;
    }

    /** `register_temp_path`: one record appended, stamped with `now`. */
    method RegisterTempPath(userId: int, path: string, ttlMin: int, now: int)
      requires Valid()
      modifies this
      ensures Valid()
      ensures records == old(records) + [TempRecord(old(nextId), userId, path, now, ttlMin)]
      ensures nextId == old(nextId) + 1
    {
      records := records + [TempRecord(nextId, userId, path, now, ttlMin)];
      nextId := nextId + 1;
    }

    /** `get_expired_temp_paths(now)`: collect the expired records in one
        scan, then delete them by id. */
    method GetExpiredTempPaths(now: int) returns (paths: seq<string>)
      requires Valid()
      modifies this
      ensures Valid()
      ensures paths == ExpiredPaths(old(records), now)
      ensures records == LiveRecords(old(records), now)
      ensures nextId == old(nextId)
    {
      var expiredIds: seq<nat> := [];
      paths := [];
      var i := 0;
      while i < |records|
        invariant 0 <= i <= |records|
        invariant expiredIds == ExpiredIds(records[..i], now)
        invariant paths == ExpiredPaths(records[..i], now)
      {
        var doc := records[i];
        assert records[..i + 1][..i] == records[..i];
        if Expired(doc, now) {
          expiredIds := expiredIds + [doc.id];
          paths := paths + [doc.path];
        }
        i := i + 1;
      }
      assert records[..i] == records;
      SweepDeletesExpired(records, now);
      LiveKeepsOrder(records, now, nextId);
      if expiredIds != [] {
        records := Without(records, expiredIds);
      } else {
        WithoutNothing(records);
      }
    }
  }

  /** Deleting ids that no record carries changes nothing. */
  lemma {:induction false} WithoutForeign(rs: seq<TempRecord>, ids: seq<nat>, x: nat)
    requires forall i :: 0 <= i < |rs| ==> rs[i].id != x
    ensures Without(rs, ids + [x]) == Without(rs, ids)
  {
    if rs != [] {
      WithoutForeign(rs[..|rs| - 1], ids, x);
    }
  }

  lemma {:induction false} WithoutNothing(rs: seq<TempRecord>)
    ensures Without(rs, []) == rs
  {
    if rs != [] {
      WithoutNothing(rs[..|rs| - 1]);
    }
  }

  /** Every expired id belongs to a record, so it is below any bound on them. */
  lemma {:induction false} ExpiredIdsBelow(rs: seq<TempRecord>, now: int, bound: int)
    requires IdsBelow(rs, bound)
    ensures forall k :: 0 <= k < |ExpiredIds(rs, now)| ==> ExpiredIds(rs, now)[k] < bound
  {
    if rs != [] {
      ExpiredIdsBelow(rs[..|rs| - 1], now, bound);
    }
  }

  /** With distinct, increasing ids, deleting the collected ids removes
      exactly the expired records. */
  lemma {:induction false} SweepDeletesExpired(rs: seq<TempRecord>, now: int)
    requires IdsIncreasing(rs)
    ensures Without(rs, ExpiredIds(rs, now)) == LiveRecords(rs, now)
  {
    if rs != [] {
      var pre, last := rs[..|rs| - 1], rs[|rs| - 1];
      var e := ExpiredIds(pre, now);
      SweepDeletesExpired(pre, now);
      assert IdsBelow(pre, last.id);
      ExpiredIdsBelow(pre, now, last.id);
      assert last.id !in e;
      if Expired(last, now) {
        WithoutForeign(pre, e, last.id);
        assert ExpiredIds(rs, now) == e + [last.id];
      } else {
        assert ExpiredIds(rs, now) == e;
      }
    }
  }

  /** The live records are a subsequence: ids stay increasing and bounded. */
  lemma {:induction false} LiveKeepsOrder(rs: seq<TempRecord>, now: int, bound: int)
    requires IdsIncreasing(rs) && IdsBelow(rs, bound)
    ensures IdsIncreasing(LiveRecords(rs, now)) && IdsBelow(LiveRecords(rs, now), bound)
  {
    if rs != [] {
      var pre, last := rs[..|rs| - 1], rs[|rs| - 1];
      LiveKeepsOrder(pre, now, last.id);
      LiveKeepsOrder(pre, now, bound);
    }
  }

  /** A record survives the sweep exactly when it has not expired. */
  lemma {:induction false} LiveRecordsSpec(rs: seq<TempRecord>, now: int, r: TempRecord)
    ensures r in LiveRecords(rs, now) <==> r in rs && !Expired(r, now)
  {
    if rs != [] {
      var pre, last := rs[..|rs| - 1], rs[|rs| - 1];
      LiveRecordsSpec(pre, now, r);
      assert rs == pre + [last];
    }
  }

  /** Every record is either returned or kept, never both. */
  lemma {:induction false} SweepPartition(rs: seq<TempRecord>, now: int)
    ensures |ExpiredPaths(rs, now)| + |LiveRecords(rs, now)| == |rs|
    ensures forall i :: 0 <= i < |LiveRecords(rs, now)| ==> !Expired(LiveRecords(rs, now)[i], now)
  {
    if rs != [] {
      SweepPartition(rs[..|rs| - 1], now);
    }
  }

  /** Nothing that survived a sweep is expired at the same time. */
  lemma {:induction false} SweepAgainEmpty(rs: seq<TempRecord>, now: int)
    ensures ExpiredPaths(LiveRecords(rs, now), now) == []
  {
    if rs != [] {
      var pre, last := rs[..|rs| - 1], rs[|rs| - 1];
      SweepAgainEmpty(pre, now);
      var live := LiveRecords(pre, now);
      if !Expired(last, now) {
        var l2 := live + [last];
        assert LiveRecords(rs, now) == l2;
        assert l2[..|l2| - 1] == live && l2[|l2| - 1] == last;
      } else {
        assert LiveRecords(rs, now) == live;
      }
    }
  }

  /** Sweeping at `now` and then at a later time keeps what one sweep at the
      later time keeps; at the same time the second sweep changes nothing. */
  lemma {:induction false} SweepLater(rs: seq<TempRecord>, now: int, later: int)
    requires now <= later
    ensures LiveRecords(LiveRecords(rs, now), later) == LiveRecords(rs, later)
  {
    if rs != [] {
      var pre, last := rs[..|rs| - 1], rs[|rs| - 1];
      SweepLater(pre, now, later);
      var live := LiveRecords(pre, now);
      if !Expired(last, now) {
        var l2 := live + [last];
        assert LiveRecords(rs, now) == l2;
        assert l2[..|l2| - 1] == live && l2[|l2| - 1] == last;
      } else {
        assert LiveRecords(rs, now) == live;
      }
    }
  }

  // ---------------------------------------------------------------------------
  // User documents (`users`).

  /** The `stats` sub-document; `None` stands for a missing key. */
  datatype Stats = Stats(lastReset: Option<string>, dailyTasks: int, dailySizeMb: real,
                         lastTaskTs: Option<int>)

  datatype Settings = Settings(autoDeleteMin: int, lang: string, defaultExtractMode: string,
                               preferredOutput: string)

  /** A `users` document. Fields that an upsert may leave out are optional. */
  datatype UserDoc = UserDoc(id: int, isPremium: Option<bool>, isBanned: Option<bool>,
                             settings: Option<Settings>, stats: Option<Stats>)

  /** The read of a document lacking `stats`: `user["stats"]` raises. */
  datatype DbError = MissingStats

  /** The document `get_or_create_user` inserts for a new user. */
  function NewUser(id: int, today: string, autoDeleteMin: int): (u: UserDoc)
    ensures u.id == id && u.isPremium == Some(false) && u.isBanned == Some(false)
    ensures u.stats.Some? && u.stats.value.dailyTasks == 0 && u.stats.value.dailySizeMb == 0.0
    ensures u.stats.Some? && u.stats.value.lastReset == Some(today) && u.stats.value.lastTaskTs.None?
  {
    UserDoc(id, Some(false), Some(false), Some(Settings(autoDeleteMin, "en", "full", "file")),
            Some(Stats(Some(today), 0, 0.0, None)))
  }

  /** The daily reset: counters to zero and the date to today when the
      stored date differs, the stats untouched otherwise. */
  function ResetDaily(s: Stats, today: string): (r: Stats)
    ensures s.lastReset == Some(today) ==> r == s
    ensures r.lastReset == Some(today) && r.lastTaskTs == s.lastTaskTs
    ensures s.lastReset != Some(today) ==> r.dailyTasks == 0 && r.dailySizeMb == 0.0
  {
    if s.lastReset != Some(today) then s.(lastReset := Some(today), dailyTasks := 0, dailySizeMb := 0.0)
    else s
  }

  /** `get_or_create_user` as written, on the documents `users`: a document
      without `stats` is an error. */
  function GetOrCreateAsWritten(users: map<int, UserDoc>, id: int, today: string,
                                autoDeleteMin: int): Result<(UserDoc, map<int, UserDoc>), DbError> {
    if id !in users then
      var u := NewUser(id, today, autoDeleteMin);
      Ok((u, users[id := u]))
    else
      var u := users[id];
      if u.stats.None? then Err(MissingStats)
      else if u.stats.value.lastReset != Some(today) then
        var v := u.(stats := Some(ResetDaily(u.stats.value, today)));
        Ok((v, users[id := v]))
      else Ok((u, users))
  }

  /** `get_or_create_user` with a missing `stats` read as fresh counters
      that are written back, the reading the upserts in `set_premium` and
      `set_ban` call for. */
  function GetOrCreate(users: map<int, UserDoc>, id: int, today: string,
                       autoDeleteMin: int): (r: (UserDoc, map<int, UserDoc>))
    ensures r.1 == users[id := r.0] && r.0.id == (if id in users then users[id].id else id)
    ensures r.0.stats.Some? && r.0.stats.value.lastReset == Some(today)
  {
    if id !in users then
      var u := NewUser(id, today, autoDeleteMin);
      (u, users[id := u])
    else
      var u := users[id];
      var s := if u.stats.None? then Stats(None, 0, 0.0, None) else u.stats.value;
      if u.stats.Some? && s.lastReset == Some(today) then (u, users)
      else
        var v := u.(stats := Some(ResetDaily(s, today)));
        (v, users[id := v])
  }

  /** `update_user_stats`: one more task and `size_mb` more today, stamped
      with `now`; no document is created for an unknown user. */
  function UpdateUserStats(users: map<int, UserDoc>, id: int, sizeMb: real, now: int): (r: map<int, UserDoc>)
    ensures r.Keys == users.Keys
    ensures forall k :: k in users && k != id ==> r[k] == users[k]
    ensures id in users ==>
      && r[id].stats.Some?
      && r[id].stats.value.dailyTasks == (if users[id].stats.Some? then users[id].stats.value.dailyTasks else 0) + 1
      && r[id].stats.value.lastTaskTs == Some(now)
      && r[id].isBanned == users[id].isBanned && r[id].isPremium == users[id].isPremium
  {
    if id !in users then users
    else
      var u := users[id];
      var s := if u.stats.None? then Stats(None, 0, 0.0, None) else u.stats.value;
      users[id := u.(stats := Some(s.(dailyTasks := s.dailyTasks + 1,
                                      dailySizeMb := s.dailySizeMb + sizeMb,
                                      lastTaskTs := Some(now))))]
  }

  /** `set_ban`: an upsert that creates a bare `{_id, is_banned}` document. */
  function SetBan(users: map<int, UserDoc>, id: int, value: bool): (r: map<int, UserDoc>)
    ensures r.Keys == users.Keys + {id} && r[id].id == (if id in users then users[id].id else id)
    ensures r[id].isBanned == Some(value)
    ensures id in users ==> r[id].stats == users[id].stats && r[id].isPremium == users[id].isPremium
    ensures id !in users ==> r[id].stats.None? && r[id].settings.None? && r[id].isPremium.None?
    ensures forall k :: k in users && k != id ==> r[k] == users[k]
  {
    if id in users then users[id := users[id].(isBanned := Some(value))]
    else users[id := UserDoc(id, None, Some(value), None, None)]
  }

  /** `set_premium`: the same upsert on `is_premium`. */
  function SetPremium(users: map<int, UserDoc>, id: int, value: bool): (r: map<int, UserDoc>)
    ensures r.Keys == users.Keys + {id} && r[id].id == (if id in users then users[id].id else id)
    ensures r[id].isPremium == Some(value)
    ensures id in users ==> r[id].stats == users[id].stats && r[id].isBanned == users[id].isBanned
    ensures id !in users ==> r[id].stats.None? && r[id].settings.None? && r[id].isBanned.None?
    ensures forall k :: k in users && k != id ==> r[k] == users[k]
  {
    if id in users then users[id := users[id].(isPremium := Some(value))]
    else users[id := UserDoc(id, Some(value), None, None, None)]
  }

  /** `is_banned`: a stored true flag, false for an unknown user. */
  function IsBanned(users: map<int, UserDoc>, id: int): (r: bool)
    ensures id !in users ==> !r
    ensures r <==> id in users && users[id].isBanned == Some(true)
  {
    id in users && users[id].isBanned == Some(true)
  }

  /** The `users` collection, one document per id. */
  class UserStore {
    var users: map<int, UserDoc>

    constructor()
      ensures users == map[]
    {
      users := map[];
    }

    /** `get_or_create_user` as written, failing on a document without
        `stats`; nothing is written on failure. */
    method GetOrCreateUserAsWritten(id: int, today: string, autoDeleteMin: int)
      returns (r: Result<UserDoc, DbError>)
      modifies this
      ensures var w := GetOrCreateAsWritten(old(users), id, today, autoDeleteMin);
        (w.Err? ==> r == Err(w.error) && users == old(users)) &&
        (w.Ok? ==> r == Ok(w.value.0) && users == w.value.1)
    {
      if id !in users {
        var u := NewUser(id, today, autoDeleteMin);
        users := users[id := u];
        return Ok(u);
      }
      var u := users[id];
      if u.stats.None? {
        return Err(MissingStats);
      }
      if u.stats.value.lastReset != Some(today) {
        u := u.(stats := Some(ResetDaily(u.stats.value, today)));
        users := users[id := u];
      }
      return Ok(u);
    }

    /** `get_or_create_user` with a missing `stats` filled in. */
    method GetOrCreateUser(id: int, today: string, autoDeleteMin: int) returns (u: UserDoc)
      modifies this
      ensures (u, users) == GetOrCreate(old(users), id, today, autoDeleteMin)
    {
      if id !in users {
        u := NewUser(id, today, autoDeleteMin);
        users := users[id := u];
        return;
      }
      u := users[id];
      var s := if u.stats.None? then Stats(None, 0, 0.0, None) else u.stats.value;
      if u.stats.None? || s.lastReset != Some(today) {
        u := u.(stats := Some(ResetDaily(s, today)));
        users := users[id := u];
      }
    }

    method UpdateStats(id: int, sizeMb: real, now: int)
      modifies this
      ensures users == UpdateUserStats(old(users), id, sizeMb, now)
    {
      users := UpdateUserStats(users, id, sizeMb, now);
    }

    method Ban(id: int, value: bool)
      modifies this
      ensures users == SetBan(old(users), id, value)
    {
      users := SetBan(users, id, value);
    }

    method Premium(id: int, value: bool)
      modifies this
      ensures users == SetPremium(old(users), id, value)
    {
      users := SetPremium(users, id, value);
    }
  }

  /** A first call creates a clean user: no tasks, no size, neither banned
      nor premium, counters dated today. */
  lemma NewUserClean(users: map<int, UserDoc>, id: int, today: string, autoDeleteMin: int)
    requires id !in users
    ensures var (u, after) := GetOrCreate(users, id, today, autoDeleteMin);
      u.stats.Some? && u.stats.value.dailyTasks == 0 && u.stats.value.dailySizeMb == 0.0 &&
      u.isBanned == Some(false) && u.isPremium == Some(false) && !IsBanned(after, id)
  {
  }

  /** On a new day the counters restart; on the same day the user comes back
      unchanged and nothing is written. */
  lemma DailyReset(users: map<int, UserDoc>, id: int, today: string, autoDeleteMin: int)
    requires id in users && users[id].stats.Some?
    ensures var (u, after) := GetOrCreate(users, id, today, autoDeleteMin);
      var s := users[id].stats.value;
      (s.lastReset == Some(today) ==> u == users[id] && after == users) &&
      (s.lastReset != Some(today) ==>
         u.stats.value.dailyTasks == 0 && u.stats.value.dailySizeMb == 0.0 &&
         u.isBanned == users[id].isBanned && u.isPremium == users[id].isPremium)
  {
  }

  /** A second call on the same day changes nothing. */
  lemma GetOrCreateIdempotent(users: map<int, UserDoc>, id: int, today: string, autoDeleteMin: int)
    ensures var (u, after) := GetOrCreate(users, id, today, autoDeleteMin);
      GetOrCreate(after, id, today, autoDeleteMin) == (u, after)
  {
  }

  /** The corrected reading agrees with the code as written wherever the
      latter succeeds. */
  lemma GetOrCreateAgrees(users: map<int, UserDoc>, id: int, today: string, autoDeleteMin: int)
    ensures var w := GetOrCreateAsWritten(users, id, today, autoDeleteMin);
      w.Ok? ==> w.value == GetOrCreate(users, id, today, autoDeleteMin)
    ensures GetOrCreateAsWritten(users, id, today, autoDeleteMin).Err? <==>
      id in users && users[id].stats.None?
  {
  }

  /** Unbanning a user the bot has never seen leaves a document without
      `stats` and no ban, so the `is_banned` guard lets the user through and
      the next `get_or_create_user` as written fails on it. Banning such a
      user does the same to the document, but the guard stops the user
      before the lookup. */
  lemma BanUnknownBreaksGet(users: map<int, UserDoc>, id: int, today: string, autoDeleteMin: int)
    requires id !in users
    ensures !IsBanned(SetBan(users, id, false), id)
    ensures GetOrCreateAsWritten(SetBan(users, id, false), id, today, autoDeleteMin) == Err(MissingStats)
    ensures IsBanned(SetBan(users, id, true), id)
  {
  }

  /** With the corrected reading the unbanned user loads, stays unbanned
      and gets fresh counters. */
  lemma BanUnknownThenGet(users: map<int, UserDoc>, id: int, today: string, autoDeleteMin: int)
    requires id !in users
    ensures var (u, after) := GetOrCreate(SetBan(users, id, false), id, today, autoDeleteMin);
      u.isBanned == Some(false) && !IsBanned(after, id) &&
      u.stats == Some(Stats(Some(today), 0, 0.0, None))
  {
  }

  /** `update_user_stats` adds exactly one task and touches no other user. */
  lemma UpdateCountsOne(users: map<int, UserDoc>, id: int, sizeMb: real, now: int, other: int)
    requires id in users && users[id].stats.Some?
    ensures var after := UpdateUserStats(users, id, sizeMb, now);
      after[id].stats.Some? &&
      after[id].stats.value.dailyTasks == users[id].stats.value.dailyTasks + 1 &&
      after[id].stats.value.lastReset == users[id].stats.value.lastReset &&
      after[id].isBanned == users[id].isBanned
    ensures other != id ==> (other in UpdateUserStats(users, id, sizeMb, now) <==> other in users)
    ensures other != id && other in users ==> UpdateUserStats(users, id, sizeMb, now)[other] == users[other]
  {
  }

  /** `set_ban` then `is_banned` reads the flag back; a premium upsert does
      not disturb it. */
  lemma BanRoundTrip(users: map<int, UserDoc>, id: int, value: bool, premium: bool)
    ensures IsBanned(SetBan(users, id, value), id) == value
    ensures IsBanned(SetPremium(SetBan(users, id, value), id, premium), id) == value
  {
  }
}
