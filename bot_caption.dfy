/** Premium status and caption settings of bot.py: `premium_until`, the
    per-user caption config with its one-day time-to-live, `build_caption`,
    and the settings replies of `on_text`. `time.time()` is the parameter
    `now`, one reading per call. */
module BotCaption {
  import opened Wrappers
  import opened Strings

  const DaySeconds: real := 86400.0

  /** A `user_caption_settings` entry. A missing `base`, `rfrom` or `rto` is
      the empty string, which the code treats alike; a missing `counter`
      reads as 0. */
  datatype CaptionCfg = CaptionCfg(base: string, counter: nat, rfrom: string, rto: string, updatedAt: real)

  // ---------------------------------------------------------------------------
  // `is_premium_user`.

  /** A stored expiry that is set (non-zero) and not yet passed. */
  predicate IsPremium(premiumUntil: map<int, real>, userId: int, now: real) {
    userId in premiumUntil && premiumUntil[userId] != 0.0 && !(premiumUntil[userId] < now)
  }

  /** The table after the check: a passed expiry is removed. */
  function AfterPremiumCheck(premiumUntil: map<int, real>, userId: int, now: real): map<int, real> {
    if userId in premiumUntil && premiumUntil[userId] != 0.0 && premiumUntil[userId] < now
    then premiumUntil - {userId}
    else premiumUntil
  }

  /** `premium_cmd`: premium for `days` days from `now`. */
  function GrantPremium(premiumUntil: map<int, real>, userId: int, days: int, now: real): map<int, real> {
    premiumUntil[userId := now + days as real * DaySeconds]
  }

  // ---------------------------------------------------------------------------
  // `build_caption`.

  /** The caption for one upload and the updated config: with a base, the
      next number and the base; then `rfrom` replaced by `rto` when both are
      set; the config is stamped with `now`. */
  function CaptionStep(cfg: CaptionCfg, default: string, now: real): (r: (string, CaptionCfg))
    ensures r.1.base == cfg.base && r.1.rfrom == cfg.rfrom && r.1.rto == cfg.rto && r.1.updatedAt == now
    ensures r.1.counter == if cfg.base != [] then cfg.counter + 1 else cfg.counter
  {
    var numbered := cfg.base != [];
    var counter := if numbered then cfg.counter + 1 else cfg.counter;
    var caption := if numbered then Pad3(counter) + " " + cfg.base else default;
    var caption' := if cfg.rfrom != [] && cfg.rto != [] then Replace(caption, cfg.rfrom, cfg.rto) else caption;
    (caption', cfg.(counter := counter, updatedAt := now))
  }

  /** `get_caption_cfg`'s expiry: a config untouched for more than a day is
      dropped unless its owner is premium. */
  predicate CaptionExpired(cfg: CaptionCfg, premium: bool, now: real) {
    !premium && now - cfg.updatedAt > DaySeconds
  }

  /** The premium and caption tables of the bot. */
  class CaptionState {
    var premiumUntil: map<int, real>
    var captionSettings: map<int, CaptionCfg>

    constructor()
      ensures premiumUntil == map[] && captionSettings == map[]
    {
      premiumUntil := map[];
      captionSettings := map[];
    }

    /** `is_premium_user`. */
    method IsPremiumUser(userId: int, now: real) returns (b: bool)
      modifies this
      ensures b == IsPremium(old(premiumUntil), userId, now)
      ensures premiumUntil == AfterPremiumCheck(old(premiumUntil), userId, now)
      ensures captionSettings == old(captionSettings)
    {
      if userId !in premiumUntil || premiumUntil[userId] == 0.0 {
        return false;
      }
      var t := premiumUntil[userId];
      if t < now {
        premiumUntil := premiumUntil - {userId};
        return false;
      }
      return true;
    }

    /** `get_caption_cfg`: the config, unless it is missing or expired; an
        expired one is removed. The premium check runs, and may expire the
        premium entry, whenever a config exists. */
    method GetCaptionCfg(userId: int, now: real) returns (cfg: Option<CaptionCfg>)
      modifies this
      ensures userId !in old(captionSettings) ==>
        cfg.None? && premiumUntil == old(premiumUntil) && captionSettings == old(captionSettings)
      ensures userId in old(captionSettings) ==>
        var c := old(captionSettings)[userId];
        var expired := CaptionExpired(c, IsPremium(old(premiumUntil), userId, now), now);
        premiumUntil == AfterPremiumCheck(old(premiumUntil), userId, now) &&
        (expired ==> cfg.None? && captionSettings == old(captionSettings) - {userId}) &&
        (!expired ==> cfg == Some(c) && captionSettings == old(captionSettings))
    {
      if userId !in captionSettings {
        return None;
      }
      var c := captionSettings[userId];
      var premium := IsPremiumUser(userId, now);
      if !premium && now - c.updatedAt > 86400.0 {
        captionSettings := captionSettings - {userId};
        return None;
      }
      return Some(c);
    }

    /** `build_caption`: the default caption without a live config;
        otherwise the numbered and replaced caption, and the config stored
        back with its new counter and time. */
    method BuildCaption(userId: int, default: string, now: real) returns (caption: string)
      modifies this
      ensures userId !in old(captionSettings) ==>
        caption == default && captionSettings == old(captionSettings) && premiumUntil == old(premiumUntil)
      ensures userId in old(captionSettings) ==>
        var c := old(captionSettings)[userId];
        premiumUntil == AfterPremiumCheck(old(premiumUntil), userId, now) &&
        if CaptionExpired(c, IsPremium(old(premiumUntil), userId, now), now) then
          caption == default && captionSettings == old(captionSettings) - {userId}
        else
          var (text, c') := CaptionStep(c, default, now);
          caption == text && captionSettings == old(captionSettings)[userId := c']
    {
      var cfg := GetCaptionCfg(userId, now);
      if cfg.None? {
        return default;
      }
      var c := cfg.value;
      caption := default;
      var counter := c.counter;
      if c.base != [] {
        counter := c.counter + 1;
        caption := Pad3(counter) + " " + c.base;
      }
      if c.rfrom != [] && c.rto != [] {
        caption := Replace(caption, c.rfrom, c.rto);
      }
      captionSettings := captionSettings[userId := c.(counter := counter, updatedAt := now)];
    }

    /** `premium_cmd` once its arguments are parsed. */
    method GrantPremiumDays(userId: int, days: int, now: real)
      modifies this
      ensures premiumUntil == GrantPremium(old(premiumUntil), userId, days, now)
      ensures captionSettings == old(captionSettings)
    {
      premiumUntil := premiumUntil[userId := now + days as real * 86400.0];
    }

    /** The `caption` settings reply: a non-empty base restarts the
        numbering; an empty one is refused and changes nothing. A user
        without settings starts from an empty config, so no rule is set. */
    method SetCaptionBase(userId: int, text: string, now: real) returns (accepted: bool)
      modifies this
      ensures accepted <==> Strip(text) != []
      ensures accepted ==>
        userId in captionSettings &&
        captionSettings[userId].base == Strip(text) && captionSettings[userId].counter == 0 &&
        captionSettings[userId].updatedAt == now
      ensures accepted && userId in old(captionSettings) ==>
        captionSettings[userId].rfrom == old(captionSettings)[userId].rfrom &&
        captionSettings[userId].rto == old(captionSettings)[userId].rto
      ensures accepted && userId !in old(captionSettings) ==>
        captionSettings[userId].rfrom == [] && captionSettings[userId].rto == []
      ensures forall u :: u != userId ==> (u in captionSettings <==> u in old(captionSettings))
      ensures forall u :: u != userId && u in captionSettings ==> captionSettings[u] == old(captionSettings)[u]
      ensures !accepted ==> captionSettings == old(captionSettings)
      ensures premiumUntil == old(premiumUntil)
    {
      var txt := Strip(text);
      if txt == [] {
        return false;
      }
      var cfg := if userId in captionSettings then captionSettings[userId] else CaptionCfg([], 0, [], [], 0.0);
      captionSettings := captionSettings[userId := cfg.(base := txt, counter := 0, updatedAt := now)];
      return true;
    }

    /** The `replace` settings reply once parsed into its two sides. A user
        without settings starts from an empty config, so no base is set and
        captions are not numbered. */
    method SetReplaceRule(userId: int, rfrom: string, rto: string, now: real)
      modifies this
      ensures userId in captionSettings
      ensures captionSettings[userId].rfrom == rfrom && captionSettings[userId].rto == rto
      ensures captionSettings[userId].updatedAt == now
      ensures userId in old(captionSettings) ==>
        captionSettings[userId].base == old(captionSettings)[userId].base &&
        captionSettings[userId].counter == old(captionSettings)[userId].counter
      ensures userId !in old(captionSettings) ==>
        captionSettings[userId].base == [] && captionSettings[userId].counter == 0
      ensures forall u :: u != userId ==> (u in captionSettings <==> u in old(captionSettings))
      ensures forall u :: u != userId && u in captionSettings ==> captionSettings[u] == old(captionSettings)[u]
      ensures premiumUntil == old(premiumUntil)
    {
      var cfg := if userId in captionSettings then captionSettings[userId] else CaptionCfg([], 0, [], [], 0.0);
      captionSettings := captionSettings[userId := cfg.(rfrom := rfrom, rto := rto, updatedAt := now)];
    }

    /** The `settings:reset` button: the caption config is forgotten. */
    method ResetSettings(userId: int)
      modifies this
      ensures captionSettings == old(captionSettings) - {userId}
      ensures premiumUntil == old(premiumUntil)
    {
      captionSettings := captionSettings - {userId};
    }
  }

  /** A passed expiry is removed and reported as not premium; a future one
      is kept; an unknown user is not premium. */
  lemma PremiumExpiry(premiumUntil: map<int, real>, userId: int, now: real)
    ensures userId !in premiumUntil ==> !IsPremium(premiumUntil, userId, now)
    ensures userId in premiumUntil && premiumUntil[userId] != 0.0 && premiumUntil[userId] < now ==>
      !IsPremium(premiumUntil, userId, now) && userId !in AfterPremiumCheck(premiumUntil, userId, now)
    ensures IsPremium(premiumUntil, userId, now) ==> AfterPremiumCheck(premiumUntil, userId, now) == premiumUntil
  {
  }

  /** A grant of `days` days at a positive time holds exactly until `days`
      days later. */
  lemma GrantHolds(premiumUntil: map<int, real>, userId: int, days: int, now: real, later: real)
    requires now > 0.0 && days > 0
    ensures IsPremium(GrantPremium(premiumUntil, userId, days, now), userId, later) <==>
            later <= now + days as real * DaySeconds
  {
    assert days as real * DaySeconds > 0.0;
  }

  /** Non-premium configs last one day after their last use; premium ones do
      not expire. */
  lemma CaptionTtl(cfg: CaptionCfg, premium: bool, now: real)
    ensures premium ==> !CaptionExpired(cfg, premium, now)
    ensures !premium ==> (CaptionExpired(cfg, premium, now) <==> now > cfg.updatedAt + DaySeconds)
  {
  }

  /** With a base, each caption is the next three-digit number and the base,
      and the number reads back. */
  lemma NumberedCaption(cfg: CaptionCfg, default: string, now: real)
    requires cfg.base != [] && (cfg.rfrom == [] || cfg.rto == [])
    ensures CaptionStep(cfg, default, now).1.counter == cfg.counter + 1
    ensures CaptionStep(cfg, default, now).0 == Pad3(cfg.counter + 1) + " " + cfg.base
    ensures ParseInt(CaptionStep(cfg, default, now).0[..|Pad3(cfg.counter + 1)|]) == Some(cfg.counter + 1)
  {
    var n := cfg.counter + 1;
    var p := Pad3(n);
    var caption := CaptionStep(cfg, default, now).0;
    assert caption == p + " " + cfg.base;
    assert caption[..|p|] == p;
    Pad3RoundTrip(n);
  }

  /** Two uploads in a row are numbered consecutively. */
  lemma ConsecutiveNumbers(cfg: CaptionCfg, d1: string, d2: string, t1: real, t2: real)
    requires cfg.base != [] && (cfg.rfrom == [] || cfg.rto == [])
    ensures var (c1, cfg1) := CaptionStep(cfg, d1, t1);
      var (c2, cfg2) := CaptionStep(cfg1, d2, t2);
      c1 == Pad3(cfg.counter + 1) + " " + cfg.base && c2 == Pad3(cfg.counter + 2) + " " + cfg.base &&
      cfg2.counter == cfg.counter + 2
  {
  }

  /** Without a base and without a complete rule the default caption is
      used unchanged; a rule whose old text does not occur changes nothing
      either. */
  lemma DefaultCaptionKept(cfg: CaptionCfg, default: string, now: real)
    requires cfg.base == []
    ensures (cfg.rfrom == [] || cfg.rto == []) ==> CaptionStep(cfg, default, now).0 == default
    ensures cfg.rfrom != [] && !Contains(default, cfg.rfrom) ==> CaptionStep(cfg, default, now).0 == default
  {
    if cfg.rfrom != [] && !Contains(default, cfg.rfrom) {
      ReplaceAbsent(default, cfg.rfrom, cfg.rto);
    }
  }

  /** Replacing a text that does not occur leaves the string as it is. */
  lemma {:induction false} ReplaceAbsent(s: string, a: string, b: string)
    requires a != [] && !Contains(s, a)
    ensures Replace(s, a, b) == s
    decreases |s|
  {
    if s != [] {
      assert !StartsWith(s, a);
      ReplaceAbsent(s[1..], a, b);
      assert [s[0]] + s[1..] == s;
    }
  }
}
